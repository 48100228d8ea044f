/** The asynchronous call-data objects of the file server and the threads that move them through CREATE, PROCESS and
FINISH. */
module CallData {
  import opened Collections

  datatype CallStatus = CREATE | PROCESS | FINISH

  /** An object and what happened to it so far: put into the queue, handed to gRPC, processed, finished. */
  datatype Object = Object(status: CallStatus, deleted: bool, queued: nat, handed: nat, processed: nat, finished: nat)

  /** The object a constructor was called for, if any: `Proceed` goes on with it afterwards. */
  datatype Caller = Loop | Parent(tag: nat)

  /** A thread in `HandleAsyncRPC`: about to construct its first object; inside the constructor of an object, before
  and after the status is set; waiting for an event; in `Proceed` of an object, before the test of its status, before
  ProcessCallback, before the status is set and before `Finish`. */
  datatype Thread =
    | Starting
    | Constructing(child: nat, caller: Caller)
    | Queueing(child: nat, caller: Caller)
    | Waiting
    | Proceeding(tag: nat)
    | Calling(tag: nat)
    | Ending(tag: nat)
    | Answering(tag: nat)

  /** `queuedTags` waits for the queue thread, `requested` for a client's call, `answered` for gRPC to send the reply;
  `events` is the completion queue. `lost` records the objects whose event was not ok; no step looks at it. */
  datatype State = State(objects: seq<Object>, threads: seq<Thread>, queuedTags: seq<nat>, requested: multiset<nat>,
                         answered: multiset<nat>, events: multiset<nat>, lost: multiset<nat>)

  /** A thread's next statement (with the event it gets), a waiting thread that gets an event which is not ok and goes on
  waiting, the queue thread's guarded section, a call that arrives and a reply that is sent. */
  datatype Step =
    | ByThread(t: nat, event: nat) | NotOk(t: nat, event: nat) | Drain | CallArrives(tag: nat) | ReplySent(tag: nat)

  predicate Init(s: State) {
    && s.objects == [] && s.queuedTags == [] && s.requested == s.answered == s.events == s.lost == multiset{}
    && forall t :: 0 <= t < |s.threads| ==> s.threads[t] == Starting
  }

  /* ---------------------------------------------------------------- steps */

  function NewObject(): (o: Object) {
    Object(CREATE, false, 0, 0, 0, 0)
  }

  function SetThread(s: State, t: nat, x: Thread): (r: State)
    requires t < |s.threads|
  {
    s.(threads := s.threads[t := x])
  }

  function SetObject(s: State, tag: nat, o: Object): (r: State)
    requires tag < |s.objects|
  {
    s.(objects := s.objects[tag := o])
  }

  /** Every object a thread will touch. */
  predicate Refers(x: Thread, tag: nat) {
    match x
    case Starting | Waiting => false
    case Constructing(child, caller) => child == tag || caller == Parent(tag)
    case Queueing(child, caller) => child == tag || caller == Parent(tag)
    case Proceeding(k) => k == tag
    case Calling(k) => k == tag
    case Ending(k) => k == tag
    case Answering(k) => k == tag
  }

  predicate InRange(s: State, x: Thread) {
    match x
    case Starting | Waiting => true
    case Constructing(child, caller) => child < |s.objects| && (caller.Parent? ==> caller.tag < |s.objects|)
    case Queueing(child, caller) => child < |s.objects| && (caller.Parent? ==> caller.tag < |s.objects|)
    case Proceeding(k) => k < |s.objects|
    case Calling(k) => k < |s.objects|
    case Ending(k) => k < |s.objects|
    case Answering(k) => k < |s.objects|
  }

  /** One statement of a thread. */
  function NextThread(s: State, t: nat, event: nat): (r: Option<State>)
    requires t < |s.threads| && InRange(s, s.threads[t])
  {
    match s.threads[t]
    case Starting =>
      Some(SetThread(s, t, Constructing(|s.objects|, Loop)).(objects := s.objects + [NewObject()]))
    case Constructing(child, caller) =>
      Some(SetObject(SetThread(s, t, Queueing(child, caller)), child, s.objects[child].(status := PROCESS)))
    case Queueing(child, caller) =>
      var o := s.objects[child];
      var after := if caller.Parent? then Calling(caller.tag) else Waiting;
      Some(SetObject(SetThread(s, t, after), child, o.(queued := o.queued + 1))
           .(queuedTags := s.queuedTags + [child]))
    case Waiting =>
      if s.events[event] == 0 then None
      else Some(SetThread(s, t, Proceeding(event)).(events := s.events[event := s.events[event] - 1]))
    case Proceeding(tag) =>
      (match s.objects[tag].status
       case CREATE => Some(SetObject(SetThread(s, t, Queueing(tag, Loop)), tag, s.objects[tag].(status := PROCESS)))
       case PROCESS =>
         Some(SetThread(s, t, Constructing(|s.objects|, Parent(tag))).(objects := s.objects + [NewObject()]))
       case FINISH => Some(SetObject(SetThread(s, t, Waiting), tag, s.objects[tag].(deleted := true))))
    case Calling(tag) =>
      var o := s.objects[tag];
      Some(SetObject(SetThread(s, t, Ending(tag)), tag, o.(processed := o.processed + 1)))
    case Ending(tag) =>
      Some(SetObject(SetThread(s, t, Answering(tag)), tag, s.objects[tag].(status := FINISH)))
    case Answering(tag) =>
      var o := s.objects[tag];
      Some(SetObject(SetThread(s, t, Waiting), tag, o.(finished := o.finished + 1))
           .(answered := s.answered[tag := s.answered[tag] + 1]))
  }

  function Handed(o: Object): (r: Object) {
    o.(handed := o.handed + 1)
  }

  /** The objects after the tags were handed to gRPC one by one. */
  function HandAll(objects: seq<Object>, tags: seq<nat>): (r: seq<Object>)
    ensures |r| == |objects|
    decreases |tags|
  {
    if tags == [] then objects
    else HandAll(if tags[0] < |objects| then objects[tags[0] := Handed(objects[tags[0]])] else objects, tags[1..])
  }

  function Next(s: State, step: Step): (r: Option<State>) {
    match step
    case ByThread(t, event) => if t < |s.threads| && InRange(s, s.threads[t]) then NextThread(s, t, event) else None
    case NotOk(t, event) =>
      if t >= |s.threads| || s.threads[t] != Waiting || s.events[event] == 0 then None
      else Some(s.(events := s.events[event := s.events[event] - 1], lost := s.lost[event := s.lost[event] + 1]))
    case Drain =>
      Some(s.(objects := HandAll(s.objects, s.queuedTags), requested := s.requested + multiset(s.queuedTags),
              queuedTags := []))
    case CallArrives(tag) =>
      if s.requested[tag] == 0 then None
      else Some(s.(requested := s.requested[tag := s.requested[tag] - 1], events := s.events[tag := s.events[tag] + 1]))
    case ReplySent(tag) =>
      if s.answered[tag] == 0 then None
      else Some(s.(answered := s.answered[tag := s.answered[tag] - 1], events := s.events[tag := s.events[tag] + 1]))
  }

  /* ---------------------------------------------------------------- the invariant */

  function Hold(x: Thread, tag: nat): (n: nat) {
    if Refers(x, tag) then 1 else 0
  }

  /** How many threads refer to an object. */
  function Holders(xs: seq<Thread>, tag: nat): (n: nat) {
    if xs == [] then 0 else Hold(xs[0], tag) + Holders(xs[1..], tag)
  }

  /** How often an object's address is anywhere: with a thread, in the queue, with gRPC, in the completion queue or lost
  with its event. */
  function References(s: State, tag: nat): (n: nat) {
    Holders(s.threads, tag) + Count(s.queuedTags, tag) + s.requested[tag] + s.answered[tag] + s.events[tag] + s.lost[tag]
  }

  predicate Counts(o: Object, queued: nat, handed: nat, processed: nat, finished: nat) {
    o.queued == queued && o.handed == handed && o.processed == processed && o.finished == finished && !o.deleted
  }

  /** The object is requested from gRPC and nothing more. */
  predicate Requested(o: Object) {
    o.status == PROCESS && Counts(o, 1, 1, 0, 0)
  }

  predicate Answered(o: Object) {
    o.status == FINISH && Counts(o, 1, 1, 1, 1)
  }

  predicate ThreadOk(s: State, x: Thread) {
    && InRange(s, x)
    && match x
       case Starting | Waiting => true
       case Constructing(child, caller) =>
         && s.objects[child] == NewObject()
         && (caller.Parent? ==> Requested(s.objects[caller.tag]))
       case Queueing(child, caller) =>
         && s.objects[child] == NewObject().(status := PROCESS)
         && (caller.Parent? ==> Requested(s.objects[caller.tag]) && caller.tag != child)
       case Proceeding(k) => Requested(s.objects[k]) || Answered(s.objects[k])
       case Calling(k) => Requested(s.objects[k])
       case Ending(k) => s.objects[k].status == PROCESS && Counts(s.objects[k], 1, 1, 1, 0)
       case Answering(k) => s.objects[k].status == FINISH && Counts(s.objects[k], 1, 1, 1, 0)
  }

  /** Every address is known in one place as long as the object lives and in none afterwards. */
  ghost predicate Linear(s: State) {
    forall tag: nat :: References(s, tag) == if tag < |s.objects| && !s.objects[tag].deleted then 1 else 0
  }

  ghost predicate Staged(s: State) {
    && (forall t :: 0 <= t < |s.threads| ==> ThreadOk(s, s.threads[t]))
    && (forall tag: nat :: tag < |s.objects| ==> StageOk(s, tag))
  }

  ghost predicate StageOk(s: State, tag: nat)
    requires tag < |s.objects|
  {
    var o := s.objects[tag];
    && (tag in s.queuedTags ==> o.status == PROCESS && Counts(o, 1, 0, 0, 0))
    && (s.requested[tag] > 0 ==> Requested(o))
    && (s.answered[tag] > 0 ==> Answered(o))
    && (s.events[tag] > 0 || s.lost[tag] > 0 ==> Requested(o) || Answered(o))
    && (o.deleted ==> o.status == FINISH && o.finished == 1)
    && o.finished <= o.processed <= o.handed <= o.queued <= 1
  }

  function One(o: Object): (n: nat) {
    if o.status == PROCESS then 1 else 0
  }

  /** The objects in state PROCESS. */
  function InProcess(objects: seq<Object>): (n: nat) {
    if objects == [] then 0 else One(objects[0]) + InProcess(objects[1..])
  }

  /** The objects in state PROCESS a thread accounts for: its own open request, and the one it serves once the
  successor is queued. */
  function Share(x: Thread): (n: nat) {
    match x
    case Starting => 0
    case Constructing(_, caller) => if caller.Parent? then 1 else 0
    case Queueing(_, caller) => if caller.Parent? then 2 else 1
    case Waiting | Proceeding(_) | Answering(_) => 1
    case Calling(_) | Ending(_) => 2
  }

  function Shares(xs: seq<Thread>): (n: nat) {
    if xs == [] then 0 else Share(xs[0]) + Shares(xs[1..])
  }

  ghost predicate Inv(s: State) {
    Linear(s) && Staged(s) && InProcess(s.objects) == Shares(s.threads)
  }

  /* ---------------------------------------------------------------- sums */

  lemma {:induction false} HoldersUpdate(xs: seq<Thread>, t: nat, x: Thread, tag: nat)
    requires t < |xs|
    ensures Holders(xs[t := x], tag) == Holders(xs, tag) - Hold(xs[t], tag) + Hold(x, tag)
    decreases t
  {
    hide Hold;
    if t == 0 {
      assert xs[t := x][1..] == xs[1..];
    } else {
      HoldersUpdate(xs[1..], t - 1, x, tag);
      assert xs[t := x][1..] == xs[1..][t - 1 := x];
    }
  }

  lemma {:induction false} HolderCounted(xs: seq<Thread>, t: nat, tag: nat)
    requires t < |xs|
    ensures Holders(xs, tag) >= Hold(xs[t], tag)
    decreases t
  {
    if t > 0 {
      HolderCounted(xs[1..], t - 1, tag);
    }
  }

  lemma {:induction false} TwoHolders(xs: seq<Thread>, t: nat, u: nat, tag: nat)
    requires t < u < |xs|
    ensures Holders(xs, tag) >= Hold(xs[t], tag) + Hold(xs[u], tag)
    decreases t
  {
    if t > 0 {
      TwoHolders(xs[1..], t - 1, u - 1, tag);
    } else {
      HolderCounted(xs[1..], u - 1, tag);
    }
  }

  lemma {:induction false} SharesUpdate(xs: seq<Thread>, t: nat, x: Thread)
    requires t < |xs|
    ensures Shares(xs[t := x]) == Shares(xs) - Share(xs[t]) + Share(x)
    decreases t
  {
    hide Share;
    if t == 0 {
      assert xs[t := x][1..] == xs[1..];
    } else {
      SharesUpdate(xs[1..], t - 1, x);
      assert xs[t := x][1..] == xs[1..][t - 1 := x];
    }
  }

  lemma {:induction false} InProcessUpdate(objects: seq<Object>, k: nat, o: Object)
    requires k < |objects|
    ensures InProcess(objects[k := o]) == InProcess(objects) - One(objects[k]) + One(o)
    decreases k
  {
    hide One;
    if k == 0 {
      assert objects[k := o][1..] == objects[1..];
    } else {
      InProcessUpdate(objects[1..], k - 1, o);
      assert objects[k := o][1..] == objects[1..][k - 1 := o];
    }
  }

  lemma {:induction false} InProcessAppend(objects: seq<Object>, o: Object)
    ensures InProcess(objects + [o]) == InProcess(objects) + One(o)
    decreases |objects|
  {
    if objects == [] {
      assert objects + [o] == [o];
    } else {
      InProcessAppend(objects[1..], o);
      assert (objects + [o])[1..] == objects[1..] + [o];
    }
  }

  lemma {:induction false} HandAllEffect(objects: seq<Object>, tags: seq<nat>)
    requires forall k :: 0 <= k < |tags| ==> tags[k] < |objects|
    requires forall tag: nat :: Count(tags, tag) <= 1
    ensures InProcess(HandAll(objects, tags)) == InProcess(objects)
    ensures forall k: nat :: k < |objects| ==>
              HandAll(objects, tags)[k] == if k in tags then Handed(objects[k]) else objects[k]
    decreases |tags|
  {
    if tags != [] {
      var head, rest := tags[0], tags[1..];
      var after := objects[head := Handed(objects[head])];
      assert tags == [head] + rest;
      assert multiset(tags) == multiset{head} + multiset(rest);
      assert Count(tags, head) == 1 + Count(rest, head);
      assert head !in rest;
      forall tag: nat ensures Count(rest, tag) <= 1 {
        assert Count(rest, tag) <= Count(tags, tag);
      }
      InProcessUpdate(objects, head, Handed(objects[head]));
      HandAllEffect(after, rest);
    }
  }

  /* ---------------------------------------------------------------- every step keeps it */

  /** What a step of thread t that changes the state of object k, and nobody else's, has to show. */
  ghost predicate Local(s: State, s': State, t: nat, tag: nat)
    requires t < |s.threads| == |s'.threads|
  {
    && |s.objects| <= |s'.objects|
    && (forall u: nat :: u < |s.threads| && u != t ==> s'.threads[u] == s.threads[u])
    && (forall k: nat :: k < |s.objects| && k != tag ==> s'.objects[k] == s.objects[k])
  }

  /** Threads other than t do not refer to an object that t refers to. */
  lemma NobodyElse(s: State, t: nat, u: nat, tag: nat)
    requires Linear(s) && t < |s.threads| && u < |s.threads| && t != u && Refers(s.threads[t], tag)
    ensures !Refers(s.threads[u], tag)
    ensures tag !in s.queuedTags && s.requested[tag] == 0 && s.answered[tag] == 0 && s.events[tag] == 0
    ensures s.lost[tag] == 0
  {
    if t < u {
      TwoHolders(s.threads, t, u, tag);
    } else {
      TwoHolders(s.threads, u, t, tag);
    }
    assert References(s, tag) <= 1;
  }

  lemma OnlyThread(s: State, t: nat, tag: nat)
    requires Linear(s) && t < |s.threads| && Refers(s.threads[t], tag)
    ensures tag < |s.objects| && !s.objects[tag].deleted
    ensures tag !in s.queuedTags && s.requested[tag] == 0 && s.answered[tag] == 0 && s.events[tag] == 0
    ensures s.lost[tag] == 0
  {
    HolderCounted(s.threads, t, tag);
    assert References(s, tag) <= 1;
  }

  /** Another thread's objects are untouched. */
  lemma OthersOk(s: State, s': State, t: nat, tag: nat, u: nat)
    requires Linear(s) && t < |s.threads| == |s'.threads| && u < |s.threads| && u != t && Local(s, s', t, tag)
    requires Refers(s.threads[t], tag) && ThreadOk(s, s.threads[u])
    ensures ThreadOk(s', s'.threads[u])
  {
    NobodyElse(s, t, u, tag);
  }

  /** A thread that constructs an object. */
  lemma AllocateKeeps(s: State, t: nat, caller: Caller)
    requires Inv(s) && t < |s.threads|
    requires s.threads[t] == if caller.Parent? then Proceeding(caller.tag) else Starting
    requires caller.Parent? ==> caller.tag < |s.objects| && s.objects[caller.tag].status == PROCESS
    ensures Inv(SetThread(s, t, Constructing(|s.objects|, caller)).(objects := s.objects + [NewObject()]))
  {
    var n := |s.objects|;
    var s' := SetThread(s, t, Constructing(n, caller)).(objects := s.objects + [NewObject()]);
    InProcessAppend(s.objects, NewObject());
    SharesUpdate(s.threads, t, Constructing(n, caller));
    forall tag: nat ensures References(s', tag) == if tag < |s'.objects| && !s'.objects[tag].deleted then 1 else 0 {
      HoldersUpdate(s.threads, t, Constructing(n, caller), tag);
      assert References(s, tag) == if tag < |s.objects| && !s.objects[tag].deleted then 1 else 0;
    }
    assert References(s, n) == 0;
    forall u | 0 <= u < |s'.threads| ensures ThreadOk(s', s'.threads[u]) {
      assert ThreadOk(s, s.threads[u]);
    }
    forall tag: nat | tag < |s'.objects| ensures StageOk(s', tag) {
      assert tag < n ==> StageOk(s, tag);
    }
  }

  /** The references outside the threads. */
  function Elsewhere(s: State, tag: nat): (n: nat) {
    Count(s.queuedTags, tag) + s.requested[tag] + s.answered[tag] + s.events[tag] + s.lost[tag]
  }

  /** A step of thread t on object tag: it keeps the reference, passes it on, or drops it with the object. */
  ghost predicate Passes(s: State, s': State, t: nat, tag: nat)
    requires t < |s.threads| == |s'.threads| && tag < |s.objects| == |s'.objects|
  {
    && s' == s.(threads := s.threads[t := s'.threads[t]], objects := s.objects[tag := s'.objects[tag]],
                queuedTags := s'.queuedTags, answered := s'.answered, events := s'.events)
    && (forall k: nat :: Hold(s'.threads[t], k) + Elsewhere(s', k) + (if k == tag && s'.objects[k].deleted then 1 else 0)
                         == Hold(s.threads[t], k) + Elsewhere(s, k))
    && One(s'.objects[tag]) + Share(s.threads[t]) == One(s.objects[tag]) + Share(s'.threads[t])
  }

  lemma PassesLinear(s: State, s': State, t: nat, tag: nat)
    requires Linear(s) && t < |s.threads| == |s'.threads| && tag < |s.objects| == |s'.objects|
    requires !s.objects[tag].deleted
    requires Passes(s, s', t, tag)
    ensures Linear(s')
  {
    forall k: nat ensures References(s', k) == if k < |s'.objects| && !s'.objects[k].deleted then 1 else 0 {
      HoldersUpdate(s.threads, t, s'.threads[t], k);
      assert References(s, k) == if k < |s.objects| && !s.objects[k].deleted then 1 else 0;
      assert Hold(s'.threads[t], k) + Elsewhere(s', k) + (if k == tag && s'.objects[k].deleted then 1 else 0)
          == Hold(s.threads[t], k) + Elsewhere(s, k);
    }
  }

  lemma PassesKeeps(s: State, s': State, t: nat, tag: nat)
    requires Inv(s) && t < |s.threads| == |s'.threads| && tag < |s.objects| == |s'.objects|
    requires Passes(s, s', t, tag) && Refers(s.threads[t], tag)
    requires ThreadOk(s', s'.threads[t]) && StageOk(s', tag)
    requires forall k: nat :: k != tag ==> Elsewhere(s', k) == Elsewhere(s, k) && SameElsewhere(s, s', k)
    ensures Inv(s')
  {
    OnlyThread(s, t, tag);
    PassesLinear(s, s', t, tag);
    InProcessUpdate(s.objects, tag, s'.objects[tag]);
    SharesUpdate(s.threads, t, s'.threads[t]);
    forall u: nat | u < |s'.threads| && u != t ensures ThreadOk(s', s'.threads[u]) {
      OthersOk(s, s', t, tag, u);
    }
    forall k: nat | k < |s'.objects| && k != tag ensures StageOk(s', k) {
      assert StageOk(s, k) && SameElsewhere(s, s', k);
    }
  }

  ghost predicate SameElsewhere(s: State, s': State, k: nat) {
    && (k in s'.queuedTags <==> k in s.queuedTags) && s'.requested[k] == s.requested[k]
    && s'.answered[k] == s.answered[k] && s'.events[k] == s.events[k] && s'.lost[k] == s.lost[k]
  }

  /** The status of a new object becomes PROCESS. */
  lemma ConstructingKeeps(s: State, t: nat)
    requires Inv(s) && t < |s.threads| && s.threads[t].Constructing?
    ensures NextThread(s, t, 0).Some? && Inv(NextThread(s, t, 0).value)
  {
    var child, s' := s.threads[t].child, NextThread(s, t, 0).value;
    assert ThreadOk(s, s.threads[t]);
    OnlyThread(s, t, child);
    PassesKeeps(s, s', t, child);
  }

  /** The object's address goes into the queue. */
  lemma QueueingKeeps(s: State, t: nat)
    requires Inv(s) && t < |s.threads| && s.threads[t].Queueing?
    ensures NextThread(s, t, 0).Some? && Inv(NextThread(s, t, 0).value)
  {
    var child, s' := s.threads[t].child, NextThread(s, t, 0).value;
    assert ThreadOk(s, s.threads[t]);
    OnlyThread(s, t, child);
    hide Count;
    forall k: nat ensures Count(s'.queuedTags, k) == Count(s.queuedTags, k) + (if k == child then 1 else 0)
                          && (k in s'.queuedTags <==> k in s.queuedTags || k == child) {
      CountAppend(s.queuedTags, child, k);
    }
    PassesKeeps(s, s', t, child);
  }

  /** A thread takes an event. */
  lemma EventKeeps(s: State, t: nat, event: nat)
    requires Inv(s) && t < |s.threads| && s.threads[t] == Waiting && NextThread(s, t, event).Some?
    ensures Inv(NextThread(s, t, event).value)
  {
    var s' := NextThread(s, t, event).value;
    SharesUpdate(s.threads, t, Proceeding(event));
    assert References(s, event) > 0;
    forall k: nat ensures References(s', k) == References(s, k) {
      HoldersUpdate(s.threads, t, Proceeding(event), k);
    }
    assert StageOk(s, event);
    forall u | 0 <= u < |s'.threads| ensures ThreadOk(s', s'.threads[u]) {
      assert ThreadOk(s, s.threads[u]);
    }
    forall k: nat | k < |s'.objects| ensures StageOk(s', k) {
      assert StageOk(s, k);
    }
  }

  /** A finished object deletes itself. */
  lemma DeleteKeeps(s: State, t: nat)
    requires Inv(s) && t < |s.threads| && s.threads[t].Proceeding?
    requires s.threads[t].tag < |s.objects| && s.objects[s.threads[t].tag].status == FINISH
    ensures NextThread(s, t, 0).Some? && Inv(NextThread(s, t, 0).value)
  {
    var tag, s' := s.threads[t].tag, NextThread(s, t, 0).value;
    assert ThreadOk(s, s.threads[t]);
    OnlyThread(s, t, tag);
    PassesKeeps(s, s', t, tag);
  }

  lemma ServingKeeps(s: State, t: nat)
    requires Inv(s) && t < |s.threads| && (s.threads[t].Calling? || s.threads[t].Ending?)
    ensures NextThread(s, t, 0).Some? && Inv(NextThread(s, t, 0).value)
  {
    var tag, s' := s.threads[t].tag, NextThread(s, t, 0).value;
    assert ThreadOk(s, s.threads[t]);
    OnlyThread(s, t, tag);
    PassesKeeps(s, s', t, tag);
  }

  /** `Finish` passes the object on to gRPC. */
  lemma AnsweringKeeps(s: State, t: nat)
    requires Inv(s) && t < |s.threads| && s.threads[t].Answering?
    ensures NextThread(s, t, 0).Some? && Inv(NextThread(s, t, 0).value)
  {
    var tag, s' := s.threads[t].tag, NextThread(s, t, 0).value;
    assert ThreadOk(s, s.threads[t]);
    OnlyThread(s, t, tag);
    PassesKeeps(s, s', t, tag);
  }

  lemma ThreadKeepsInv(s: State, t: nat, event: nat)
    requires Inv(s) && t < |s.threads| && InRange(s, s.threads[t]) && NextThread(s, t, event).Some?
    ensures Inv(NextThread(s, t, event).value)
  {
    hide Inv;
    match s.threads[t]
    case Starting => AllocateKeeps(s, t, Loop);
    case Constructing(_, _) => ConstructingKeeps(s, t);
    case Queueing(_, _) => QueueingKeeps(s, t);
    case Waiting => EventKeeps(s, t, event);
    case Proceeding(tag) =>
      ProceedingStage(s, t);
      if s.objects[tag].status == PROCESS {
        AllocateKeeps(s, t, Parent(tag));
      } else {
        DeleteKeeps(s, t);
      }
    case Calling(_) => ServingKeeps(s, t);
    case Ending(_) => ServingKeeps(s, t);
    case Answering(_) => AnsweringKeeps(s, t);
  }

  /** An event never reaches an object in state CREATE. */
  lemma ProceedingStage(s: State, t: nat)
    requires Inv(s) && t < |s.threads| && s.threads[t].Proceeding?
    ensures s.threads[t].tag < |s.objects| && s.objects[s.threads[t].tag].status != CREATE
  {
    assert ThreadOk(s, s.threads[t]);
  }

  /** The queue thread hands every queued object to gRPC and empties the queue. */
  lemma DrainKeeps(s: State)
    requires Inv(s)
    ensures Inv(Next(s, Drain).value)
  {
    var s' := Next(s, Drain).value;
    forall k: nat ensures Count(s.queuedTags, k) <= 1 && (Count(s.queuedTags, k) > 0 <==> k in s.queuedTags)
                          && (k in s.queuedTags ==> k < |s.objects|) {
      assert References(s, k) <= 1;
    }
    assert forall i :: 0 <= i < |s.queuedTags| ==> s.queuedTags[i] in s.queuedTags;
    HandAllEffect(s.objects, s.queuedTags);
    forall k: nat ensures References(s', k) == References(s, k) {
    }
    forall u | 0 <= u < |s'.threads| ensures ThreadOk(s', s'.threads[u]) {
      DrainThread(s, s', u);
    }
    forall k: nat | k < |s'.objects| ensures StageOk(s', k) {
      assert StageOk(s, k) && References(s, k) <= 1;
    }
  }

  lemma DrainThread(s: State, s': State, u: nat)
    requires Linear(s) && Staged(s) && u < |s.threads| && s'.threads == s.threads && |s'.objects| == |s.objects|
    requires forall k: nat :: k < |s.objects| && k !in s.queuedTags ==> s'.objects[k] == s.objects[k]
    ensures ThreadOk(s', s'.threads[u])
  {
    assert ThreadOk(s, s.threads[u]);
    forall k: nat | Refers(s.threads[u], k) ensures k !in s.queuedTags {
      OnlyThread(s, u, k);
    }
  }

  lemma RuntimeKeeps(s: State, step: Step)
    requires Inv(s) && (step.CallArrives? || step.ReplySent? || step.NotOk?) && Next(s, step).Some?
    ensures Inv(Next(s, step).value)
  {
    var s' := Next(s, step).value;
    forall k: nat ensures References(s', k) == References(s, k) {
    }
    forall u | 0 <= u < |s'.threads| ensures ThreadOk(s', s'.threads[u]) {
      assert ThreadOk(s, s.threads[u]);
    }
    forall k: nat | k < |s'.objects| ensures StageOk(s', k) {
      assert StageOk(s, k) && References(s, k) <= 1;
    }
  }

  /** Every step keeps the invariant. */
  lemma NextKeepsInv(s: State, step: Step)
    requires Inv(s) && Next(s, step).Some?
    ensures Inv(Next(s, step).value)
  {
    hide Inv;
    match step
    case ByThread(t, event) => ThreadKeepsInv(s, t, event);
    case NotOk(_, _) => RuntimeKeeps(s, step);
    case Drain => DrainKeeps(s);
    case CallArrives(_) => RuntimeKeeps(s, step);
    case ReplySent(_) => RuntimeKeeps(s, step);
  }

  lemma {:induction false} NoHolders(xs: seq<Thread>, tag: nat)
    requires forall t :: 0 <= t < |xs| ==> xs[t] == Starting
    ensures Holders(xs, tag) == 0 && Shares(xs) == 0
    decreases |xs|
  {
    if xs != [] {
      NoHolders(xs[1..], tag);
    }
  }

  lemma InitInv(s: State)
    requires Init(s)
    ensures Inv(s)
  {
    forall tag: nat ensures References(s, tag) == 0 {
      NoHolders(s.threads, tag);
    }
    NoHolders(s.threads, 0);
  }

  /* ---------------------------------------------------------------- whole runs */

  function Run(s: State, steps: seq<Step>): (r: Option<State>)
    decreases |steps|
  {
    if steps == [] then Some(s)
    else match Next(s, steps[0])
      case None => None
      case Some(s') => Run(s', steps[1..])
  }

  lemma {:induction false} RunKeepsInv(s: State, steps: seq<Step>)
    requires Inv(s) && Run(s, steps).Some?
    ensures Inv(Run(s, steps).value)
    decreases |steps|
  {
    hide Inv;
    hide Next;
    if steps != [] {
      NextKeepsInv(s, steps[0]);
      RunKeepsInv(Next(s, steps[0]).value, steps[1..]);
    }
  }

  /** Each object is queued, handed to gRPC, processed and finished at most once, each only after the one before, and
  deleted only after all of them. */
  lemma OnceEach(s: State, steps: seq<Step>, tag: nat)
    requires Init(s) && Run(s, steps).Some? && tag < |Run(s, steps).value.objects|
    ensures var o := Run(s, steps).value.objects[tag];
            && o.finished <= o.processed <= o.handed <= o.queued <= 1
            && (o.deleted ==> o.finished == 1)
  {
    InitInv(s);
    RunKeepsInv(s, steps);
    assert StageOk(Run(s, steps).value, tag);
  }

  /** A live object is somewhere, and where it is tells its stage. */
  lemma Located(s: State, tag: nat)
    requires Inv(s) && tag < |s.objects| && !s.objects[tag].deleted
    ensures tag in s.queuedTags || s.requested[tag] > 0 || s.answered[tag] > 0 || s.events[tag] > 0 || s.lost[tag] > 0
            || exists t :: 0 <= t < |s.threads| && Refers(s.threads[t], tag)
  {
    assert References(s, tag) == 1;
    if Holders(s.threads, tag) > 0 {
      SomeHolder(s.threads, tag);
    }
  }

  lemma {:induction false} SomeHolder(xs: seq<Thread>, tag: nat)
    requires Holders(xs, tag) > 0
    ensures exists t :: 0 <= t < |xs| && Refers(xs[t], tag)
    decreases |xs|
  {
    if !Refers(xs[0], tag) {
      SomeHolder(xs[1..], tag);
      var t :| 0 <= t < |xs[1..]| && Refers(xs[1..][t], tag);
      assert Refers(xs[t + 1], tag);
    }
  }

  /** Nothing that will still be used refers to a deleted object: not a thread, the queue, gRPC or an event. */
  lemma NeverAfterDelete(s: State, tag: nat)
    requires Inv(s) && (tag < |s.objects| ==> s.objects[tag].deleted)
    ensures forall t :: 0 <= t < |s.threads| ==> !Refers(s.threads[t], tag)
    ensures tag !in s.queuedTags && s.requested[tag] == s.answered[tag] == s.events[tag] == s.lost[tag] == 0
  {
    forall t | 0 <= t < |s.threads| ensures !Refers(s.threads[t], tag) {
      HolderCounted(s.threads, t, tag);
      assert References(s, tag) == 0;
    }
    assert References(s, tag) == 0;
  }

  lemma {:induction false} WaitingShares(xs: seq<Thread>)
    requires forall t :: 0 <= t < |xs| ==> xs[t] == Waiting
    ensures Shares(xs) == |xs|
    decreases |xs|
  {
    if xs != [] {
      WaitingShares(xs[1..]);
    }
  }

  /** Whenever all threads wait for an event, as many objects are in state PROCESS as there are threads, and each of
  them is on its way to or from gRPC unless its event was lost: as long as none is, the server never runs out of open
  requests. */
  lemma OneOpenRequestPerThread(s: State)
    requires Inv(s) && forall t :: 0 <= t < |s.threads| ==> s.threads[t] == Waiting
    ensures InProcess(s.objects) == |s.threads|
    ensures forall tag: nat :: tag < |s.objects| && s.objects[tag].status == PROCESS ==>
              tag in s.queuedTags || s.requested[tag] > 0 || s.events[tag] > 0 || s.lost[tag] > 0
  {
    WaitingShares(s.threads);
    forall tag: nat | tag < |s.objects| && s.objects[tag].status == PROCESS
      ensures tag in s.queuedTags || s.requested[tag] > 0 || s.events[tag] > 0 || s.lost[tag] > 0
    {
      assert StageOk(s, tag);
      Located(s, tag);
    }
  }

  /** The thread has brought its first object into state PROCESS. */
  predicate Started(x: Thread) {
    x != Starting && !(x.Constructing? && x.caller == Loop)
  }

  lemma {:induction false} StartedShares(xs: seq<Thread>)
    requires forall t :: 0 <= t < |xs| ==> Started(xs[t])
    ensures |xs| <= Shares(xs) <= 2 * |xs|
    decreases |xs|
  {
    if xs != [] {
      StartedShares(xs[1..]);
    }
  }

  /** In every state after start-up there is an object in state PROCESS for each thread, and at most one more for each. */
  lemma OpenRequestsSuffice(s: State)
    requires Inv(s) && forall t :: 0 <= t < |s.threads| ==> Started(s.threads[t])
    ensures |s.threads| <= InProcess(s.objects) <= 2 * |s.threads|
  {
    StartedShares(s.threads);
  }

  /* ---------------------------------------------------------------- a call is served */

  lemma {:induction false} RunSnoc(s: State, steps: seq<Step>, step: Step)
    requires Run(s, steps).Some?
    ensures Run(s, steps + [step]) == Next(Run(s, steps).value, step)
    decreases |steps|
  {
    hide Next;
    if steps == [] {
      assert steps + [step] == [step] && [step][1..] == [];
    } else {
      assert (steps + [step])[0] == steps[0] && (steps + [step])[1..] == steps[1..] + [step];
      RunSnoc(Next(s, steps[0]).value, steps[1..], step);
    }
  }

  /** One step more. */
  lemma Go(s: State, steps: seq<Step>, u: State, step: Step, u': State) returns (more: seq<Step>)
    requires Run(s, steps) == Some(u) && Next(u, step) == Some(u')
    ensures more == steps + [step] && Run(s, more) == Some(u')
  {
    RunSnoc(s, steps, step);
    more := steps + [step];
  }

  /** The state once a thread has taken an open request: its successor is queued and its status is still PROCESS. */
  function Taken(s: State, t: nat, tag: nat): (u: State)
    requires t < |s.threads| && tag < |s.objects|
  {
    SetThread(s, t, Calling(tag)).(objects := s.objects + [Object(PROCESS, false, 1, 0, 0, 0)],
                                   queuedTags := s.queuedTags + [|s.objects|])
  }

  lemma Takes(s: State, t: nat, tag: nat) returns (steps: seq<Step>)
    requires t < |s.threads| && s.threads[t] == Waiting && s.requested[tag] > 0
    requires tag < |s.objects| && s.objects[tag].status == PROCESS
    ensures Run(s, steps) == Some(Taken(s, t, tag).(requested := s.requested[tag := s.requested[tag] - 1]))
  {
    var n, o := |s.objects|, NewObject();
    var u0 := s.(requested := s.requested[tag := s.requested[tag] - 1], events := s.events[tag := s.events[tag] + 1]);
    steps := Go(s, [], s, CallArrives(tag), u0);
    var u1 := SetThread(u0, t, Proceeding(tag)).(events := s.events);
    assert u0.events[tag := u0.events[tag] - 1] == s.events;
    steps := Go(s, steps, u0, ByThread(t, tag), u1);
    var u2 := SetThread(u1, t, Constructing(n, Parent(tag))).(objects := s.objects + [o]);
    steps := Go(s, steps, u1, ByThread(t, tag), u2);
    var u3 := SetThread(u2, t, Queueing(n, Parent(tag))).(objects := s.objects + [o.(status := PROCESS)]);
    assert u2.objects[n := o.(status := PROCESS)] == u3.objects;
    steps := Go(s, steps, u2, ByThread(t, tag), u3);
    var u4 := Taken(s, t, tag).(requested := u0.requested);
    assert u3.objects[n := Object(PROCESS, false, 1, 0, 0, 0)] == u4.objects;
    assert s.threads[t := Calling(tag)] == u3.threads[t := Calling(tag)];
    steps := Go(s, steps, u3, ByThread(t, tag), u4);
  }

  lemma Replies(s: State, t: nat, tag: nat) returns (steps: seq<Step>)
    requires t < |s.threads| && s.threads[t] == Calling(tag) && tag < |s.objects|
    ensures var o := s.objects[tag];
            Run(s, steps) == Some(SetThread(s, t, Waiting).(objects :=
              s.objects[tag := o.(status := FINISH, processed := o.processed + 1, finished := o.finished + 1)],
              answered := s.answered[tag := s.answered[tag] + 1]))
  {
    var o := s.objects[tag];
    var o1 := o.(processed := o.processed + 1);
    var u1 := SetObject(SetThread(s, t, Ending(tag)), tag, o1);
    steps := Go(s, [], s, ByThread(t, tag), u1);
    var u2 := SetObject(SetThread(u1, t, Answering(tag)), tag, o1.(status := FINISH));
    steps := Go(s, steps, u1, ByThread(t, tag), u2);
    var o3 := o1.(status := FINISH, finished := o.finished + 1);
    var u3 := SetObject(SetThread(u2, t, Waiting), tag, o3).(answered := s.answered[tag := s.answered[tag] + 1]);
    steps := Go(s, steps, u2, ByThread(t, tag), u3);
    assert u3.objects == s.objects[tag := o3] && u3.threads == s.threads[t := Waiting];
  }

  lemma Deletes(s: State, t: nat, tag: nat) returns (steps: seq<Step>)
    requires t < |s.threads| && s.threads[t] == Waiting && tag < |s.objects|
    requires s.answered[tag] > 0 && s.objects[tag].status == FINISH
    ensures Run(s, steps) == Some(s.(objects := s.objects[tag := s.objects[tag].(deleted := true)],
                                     answered := s.answered[tag := s.answered[tag] - 1]))
  {
    var u1 := s.(answered := s.answered[tag := s.answered[tag] - 1], events := s.events[tag := s.events[tag] + 1]);
    steps := Go(s, [], s, ReplySent(tag), u1);
    var u2 := SetThread(u1, t, Proceeding(tag)).(events := s.events);
    assert u1.events[tag := u1.events[tag] - 1] == s.events;
    steps := Go(s, steps, u1, ByThread(t, tag), u2);
    var u3 := SetObject(SetThread(u2, t, Waiting), tag, s.objects[tag].(deleted := true));
    steps := Go(s, steps, u2, ByThread(t, tag), u3);
    assert u3.threads == s.threads;
  }

  /** From every reachable state, a call that arrives at an open request is served by a waiting thread: the object is
  processed, finished and deleted, another one is queued in its place, and nothing else has changed. */
  lemma CallIsServed(s: State, t: nat, tag: nat) returns (steps: seq<Step>)
    requires Inv(s) && t < |s.threads| && s.threads[t] == Waiting && s.requested[tag] > 0
    ensures tag < |s.objects|
    ensures Run(s, steps)
         == Some(s.(objects := s.objects[tag := Object(FINISH, true, 1, 1, 1, 1)] + [Object(PROCESS, false, 1, 0, 0, 0)],
                    queuedTags := s.queuedTags + [|s.objects|], requested := s.requested[tag := s.requested[tag] - 1]))
  {
    assert References(s, tag) > 0 && tag < |s.objects|;
    assert StageOk(s, tag);
    var first := Takes(s, t, tag);
    var u := Run(s, first).value;
    var second := Replies(u, t, tag);
    RunConcat(s, first, second);
    var v := Run(u, second).value;
    var third := Deletes(v, t, tag);
    RunConcat(s, first + second, third);
    steps := first + second + third;
    hide Run;
    assert v.threads == s.threads && v.answered[tag := v.answered[tag] - 1] == s.answered;
    assert v.objects[tag := Object(FINISH, true, 1, 1, 1, 1)]
        == s.objects[tag := Object(FINISH, true, 1, 1, 1, 1)] + [Object(PROCESS, false, 1, 0, 0, 0)];
  }

  /** A thread that starts has an open request of its own once the queue thread has run. */
  lemma ThreadStartsUp(s: State, t: nat) returns (steps: seq<Step>)
    requires Inv(s) && t < |s.threads| && s.threads[t] == Starting
    ensures Run(s, steps).Some?
    ensures var u, n := Run(s, steps).value, |s.objects|;
            && u.threads == s.threads[t := Waiting] && u.queuedTags == []
            && |u.objects| == n + 1 && u.objects[n] == Object(PROCESS, false, 1, 1, 0, 0) && u.requested[n] == 1
  {
    var n, o := |s.objects|, NewObject();
    assert References(s, n) == 0;
    var u1 := SetThread(s, t, Constructing(n, Loop)).(objects := s.objects + [o]);
    steps := Go(s, [], s, ByThread(t, 0), u1);
    var u2 := SetObject(SetThread(u1, t, Queueing(n, Loop)), n, o.(status := PROCESS));
    steps := Go(s, steps, u1, ByThread(t, 0), u2);
    var u3 := SetObject(SetThread(u2, t, Waiting), n, Object(PROCESS, false, 1, 0, 0, 0)).(queuedTags := s.queuedTags + [n]);
    steps := Go(s, steps, u2, ByThread(t, 0), u3);
    RunKeepsInv(s, steps);
    DrainedOne(u3, n);
    var u4 := Next(u3, Drain).value;
    steps := Go(s, steps, u3, Drain, u4);
    assert u4.threads == s.threads[t := Waiting];
    CountAppend(s.queuedTags, n, n);
  }

  /** An event that is not ok reaches any waiting thread in the same way; its object stays as it is, for good. */
  lemma EventIsLost(s: State, t: nat, tag: nat)
    requires Inv(s) && t < |s.threads| && s.threads[t] == Waiting && s.events[tag] > 0
    ensures Next(s, NotOk(t, tag)).Some?
    ensures var u := Next(s, NotOk(t, tag)).value;
            u.objects == s.objects && u.threads == s.threads && u.lost[tag] == 1 && u.events[tag] == 0
  {
    assert References(s, tag) <= 1;
  }

  lemma DrainedOne(s: State, tag: nat)
    requires Inv(s) && tag in s.queuedTags
    ensures tag < |s.objects|
    ensures HandAll(s.objects, s.queuedTags)[tag] == Handed(s.objects[tag])
  {
    forall k: nat ensures Count(s.queuedTags, k) <= 1 {
      assert References(s, k) <= 1;
    }
    forall k | 0 <= k < |s.queuedTags| ensures s.queuedTags[k] < |s.objects| {
      assert s.queuedTags[k] in s.queuedTags && References(s, s.queuedTags[k]) > 0;
    }
    assert References(s, tag) > 0;
    HandAllEffect(s.objects, s.queuedTags);
  }

  lemma {:induction false} RunConcat(s: State, a: seq<Step>, b: seq<Step>)
    requires Run(s, a).Some?
    ensures Run(s, a + b) == Run(Run(s, a).value, b)
    decreases |a|
  {
    hide Next;
    if a == [] {
      assert a + b == b;
    } else {
      assert (a + b)[0] == a[0] && (a + b)[1..] == a[1..] + b;
      RunConcat(Next(s, a[0]).value, a[1..], b);
    }
  }

  /* ---------------------------------------------------------------- the queue itself */

  datatype QueueRequest = QueueRequest(tag: nat, finished: bool)

  function Tags(q: seq<QueueRequest>): (tags: seq<nat>)
    ensures |tags| == |q| && forall i :: 0 <= i < |q| ==> tags[i] == q[i].tag
  {
    seq(|q|, i requires 0 <= i < |q| => q[i].tag)
  }

  /** The queue of the service and what was passed to `RequestCallbackList`, in order. */
  class RequestQueue {
    var queuedTags: seq<QueueRequest>
    var handed: seq<nat>

    method RequestCallback(tag: nat)
      modifies this`queuedTags
      ensures Tags(queuedTags) == Tags(old(queuedTags)) + [tag]
    {
      queuedTags := queuedTags + [QueueRequest(tag, false)];
    }

    /** One round of the guarded section: every request in the queue is handed over, in order, and leaves the queue. */
    method ProcessQueuedRequests()
      modifies this
      ensures handed == old(handed) + Tags(old(queuedTags)) && queuedTags == []
    {
      var i := 0;
      while i < |queuedTags|
        invariant i <= |queuedTags| == |old(queuedTags)|
        invariant handed == old(handed) + Tags(old(queuedTags))[..i]
        invariant forall k :: 0 <= k < |queuedTags| ==> queuedTags[k].tag == old(queuedTags)[k].tag
        invariant forall k :: 0 <= k < i ==> queuedTags[k].finished
      {
        handed := handed + [queuedTags[i].tag];
        queuedTags := queuedTags[i := queuedTags[i].(finished := true)];
        i := i + 1;
      }
      var kept, j := [], 0;
      while j < |queuedTags|
        invariant j <= |queuedTags| && kept == []
      {
        var request := queuedTags[j];
        if !request.finished {
          kept := kept + [request];
        }
        j := j + 1;
      }
      queuedTags := kept;
    }
  }
}
