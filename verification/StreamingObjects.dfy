/** The objects of the GStreamer source: the queue of a pad, the wrap of a request, the callback and the task
  * function, which take the steps of StreamingLoop. */
module StreamingObjects {
  import opened Bytes
  import opened StreamingLoop

  type Stream = nat

  function Reversed<T>(q: seq<T>): seq<T> {
    if q == [] then [] else Reversed(q[1..]) + [q[0]]
  }

  lemma {:induction false} ReversedSnoc<T>(q: seq<T>, x: T)
    ensures Reversed(q + [x]) == [x] + Reversed(q)
    decreases |q|
  {
    if q == [] {
      assert Reversed([x]) == Reversed<T>([]) + [x];
    } else {
      ReversedSnoc(q[1..], x);
      assert (q + [x])[1..] == q[1..] + [x];
    }
  }

  function ToSeq<T>(x: Option<T>): seq<T> {
    if x.Some? then [x.value] else []
  }

  function Somes(q: seq<Buffer>): seq<Option<Buffer>> {
    seq(|q|, i requires 0 <= i < |q| => Some(q[i]))
  }

  class GstLibcameraPad {
    const stream: Stream
    var pendingBuffers: seq<Option<Buffer>>  // a GQueue, head first
    var pool: seq<Buffer>                    // the idle buffers of its GstLibcameraPool
    ghost var pushed: seq<Buffer>            // what gst_pad_push() has been given

    constructor (stream: Stream, pool: seq<Buffer>)
      ensures this.stream == stream && this.pool == pool && Fifo() == [] && pushed == []
    {
      this.stream, this.pool, pendingBuffers, pushed := stream, pool, [], [];
    }

    /** Buffers are pushed at the head and popped at the tail, so the oldest comes last. */
    ghost function Fifo(): seq<Option<Buffer>>
      reads this
    {
      Reversed(pendingBuffers)
    }

    ghost function View(): PadView
      reads this
    {
      PadView(pool, Fifo(), pushed)
    }

    method QueueBuffer(buffer: Option<Buffer>)
      modifies this`pendingBuffers
      ensures Fifo() == old(Fifo()) + [buffer]
    {
      pendingBuffers := [buffer] + pendingBuffers;
    }

    /** gst_libcamera_pad_push_pending(): what is pushed downstream, if anything. */
    method PushPending() returns (buffer: Option<Buffer>)
      modifies this`pendingBuffers, this`pushed
      ensures old(Fifo()) == [] ==> buffer.None? && Fifo() == []
      ensures old(Fifo()) != [] ==> [buffer] + Fifo() == old(Fifo())
      ensures GaveOldest(old(View()), View())
    {
      if pendingBuffers == [] {
        return None;
      }
      var n := |pendingBuffers| - 1;
      buffer := pendingBuffers[n];
      ReversedSnoc(pendingBuffers[..n], buffer);
      assert pendingBuffers == pendingBuffers[..n] + [buffer];
      pendingBuffers := pendingBuffers[..n];
      if buffer.Some? {
        pushed := pushed + [buffer.value];
      }
    }

    /** A buffer of the pool, if there is one and a frame for it; without a frame the buffer is lost. */
    method AcquireBuffer(prepared: bool) returns (buffer: Option<Buffer>)
      modifies this`pool
      ensures old(pool) == [] ==> buffer.None? && pool == []
      ensures old(pool) != [] ==>
        pool == old(pool)[1..] && buffer == if prepared then Some(old(pool)[0]) else None
    {
      if pool == [] {
        return None;
      }
      buffer := if prepared then Some(pool[0]) else None;
      pool := pool[1..];
    }

    /** The last reference to a buffer is dropped. */
    method ReleaseBuffer(buffer: Buffer)
      modifies this`pool
      ensures pool == old(pool) + [buffer]
    {
      pool := pool + [buffer];
    }

    method HasPending() returns (r: bool)
      ensures r <==> Fifo() != []
    {
      r := |pendingBuffers| > 0;
    }
  }

  /** The buffers a wrap still has. */
  function Attached(buffers: map<Stream, Option<Buffer>>): map<Stream, Buffer> {
    map s | s in buffers && buffers[s].Some? :: buffers[s].value
  }

  function Find(attached: map<Stream, Buffer>, stream: Stream): Option<Buffer> {
    if stream in attached then Some(attached[stream]) else None
  }

  lemma FindLess(attached: map<Stream, Buffer>, gone: set<Stream>, stream: Stream)
    requires stream !in gone
    ensures Find(attached - gone, stream) == Find(attached, stream)
  {
  }

  class RequestWrap {
    const request: nat
    var buffers: map<Stream, Option<Buffer>>

    constructor (request: nat)
      ensures this.request == request && buffers == map[]
    {
      this.request, buffers := request, map[];
    }

    ghost function View(): WrapView
      reads this
    {
      WrapView(request, Attached(buffers))
    }

    /** The buffer of the stream is replaced, and the one that was there loses its reference. */
    method AttachBuffer(stream: Stream, buffer: Buffer) returns (unref: Option<Buffer>)
      modifies this
      ensures Attached(buffers) == Attached(old(buffers))[stream := buffer]
      ensures unref == Find(Attached(old(buffers)), stream)
    {
      unref := if stream in buffers then buffers[stream] else None;
      buffers := buffers[stream := Some(buffer)];
    }

    method DetachBuffer(stream: Stream) returns (buffer: Option<Buffer>)
      modifies this
      ensures Attached(buffers) == Attached(old(buffers)) - {stream}
      ensures buffer == Find(Attached(old(buffers)), stream)
    {
      buffer := None;
      if stream in buffers {
        buffer := buffers[stream];
        buffers := buffers[stream := None];
      }
    }

    /** The destructor drops a reference to every buffer that is still attached. */
    method Destroy() returns (unref: map<Stream, Buffer>)
      ensures unref == Attached(buffers)
    {
      unref := map[];
      var left := buffers;
      while left != map[]
        invariant left.Keys <= buffers.Keys && forall s <- left :: left[s] == buffers[s]
        invariant unref == map s | s in buffers && s !in left && buffers[s].Some? :: buffers[s].value
        decreases |left|
      {
        assert (forall s :: s !in left) ==> left == map[];
        var s :| s in left;
        if left[s].Some? {
          unref := unref[s := left[s].value];
        }
        left := left - {s};
      }
    }
  }

  function Streams(pads: seq<GstLibcameraPad>): set<Stream> {
    set p <- pads :: p.stream
  }

  lemma NoStreams(pads: seq<GstLibcameraPad>, attached: map<Stream, Buffer>)
    requires pads == []
    ensures attached - Streams(pads) == attached
  {
  }

  lemma StreamsSnoc(pads: seq<GstLibcameraPad>, i: nat)
    requires i < |pads| && forall j | 0 <= j < i :: pads[j].stream != pads[i].stream
    ensures Streams(pads[..i + 1]) == Streams(pads[..i]) + {pads[i].stream}
    ensures pads[i].stream !in Streams(pads[..i])
  {
    assert pads[..i + 1] == pads[..i] + [pads[i]];
  }

  /** What a pad has: the idle buffers, the pending ones, oldest first, and the pushed ones. */
  datatype PadView = PadView(pool: seq<Buffer>, pending: seq<Option<Buffer>>, pushed: seq<Buffer>)

  /** A queued wrap: the address of its request, and the buffers it has. */
  datatype WrapView = WrapView(request: nat, attached: map<Stream, Buffer>)

  predicate PadsMatch(views: seq<PadView>, s: State) {
    Shaped(s) && ViewsAre(views, s.pools, s.pending, s.pushed)
  }

  predicate ViewsAre(
      views: seq<PadView>, pools: seq<seq<Buffer>>, pending: seq<seq<Buffer>>, pushed: seq<seq<Buffer>>) {
    && |views| == |pools| == |pending| == |pushed|
    && forall k | 0 <= k < |views| :: views[k] == PadView(pools[k], Somes(pending[k]), pushed[k])
  }

  /** The wrap has these buffers for the first pads, and no others. */
  predicate Holds(attached: map<Stream, Buffer>, pads: seq<GstLibcameraPad>, buffers: seq<Buffer>) {
    && attached.Keys <= Streams(pads)
    && forall k | 0 <= k < |pads| ::
         Find(attached, pads[k].stream) == if k < |buffers| then Some(buffers[k]) else None
  }

  predicate WrapsMatch(wraps: seq<WrapView>, pads: seq<GstLibcameraPad>, requests: seq<Wrap>) {
    && |wraps| == |requests|
    && forall i | 0 <= i < |wraps| ::
         wraps[i].request == requests[i].request.address && Holds(wraps[i].attached, pads, requests[i].buffers)
  }

  /** The pads, the queued wraps and the task are as a state of the loop says. */
  predicate Shows(
      views: seq<PadView>, wraps: seq<WrapView>, pads: seq<GstLibcameraPad>, task: TaskState, s: State) {
    PadsMatch(views, s) && WrapsMatch(wraps, pads, s.requests) && task == s.task
  }

  /** Every pad gets the buffer of its stream, or the null pointer if there is none. */
  function Handed(views: seq<PadView>, pads: seq<GstLibcameraPad>, attached: map<Stream, Buffer>): seq<PadView>
    requires |views| == |pads|
  {
    seq(|views|, k requires 0 <= k < |views| =>
      views[k].(pending := views[k].pending + [Find(attached, pads[k].stream)]))
  }

  /** Every pool gets back the buffer of its stream, if there is one. */
  function Refilled(views: seq<PadView>, pads: seq<GstLibcameraPad>, attached: map<Stream, Buffer>): seq<PadView>
    requires |views| == |pads|
  {
    seq(|views|, k requires 0 <= k < |views| =>
      views[k].(pool := views[k].pool + ToSeq(Find(attached, pads[k].stream))))
  }

  /** What becomes of the pads when a wrap with these buffers completes. */
  function AfterWrap(
      views: seq<PadView>, pads: seq<GstLibcameraPad>, attached: map<Stream, Buffer>, delivered: bool): seq<PadView>
    requires |views| == |pads|
  {
    if delivered then Refilled(Handed(views, pads, attached), pads, attached - Streams(pads))
    else Refilled(views, pads, attached)
  }

  lemma HandedAre(
      views: seq<PadView>, pads: seq<GstLibcameraPad>, attached: map<Stream, Buffer>, buffers: seq<Buffer>,
      pools: seq<seq<Buffer>>, pending: seq<seq<Buffer>>, pushed: seq<seq<Buffer>>)
    requires ViewsAre(views, pools, pending, pushed) && |views| == |pads| == |buffers| && Holds(attached, pads, buffers)
    ensures ViewsAre(Handed(views, pads, attached), pools, Joined(pending, buffers, 0), pushed)
    ensures Refilled(Handed(views, pads, attached), pads, attached - Streams(pads)) == Handed(views, pads, attached)
  {
    RefilledNone(Handed(views, pads, attached), pads, attached);
  }

  lemma RefilledNone(views: seq<PadView>, pads: seq<GstLibcameraPad>, attached: map<Stream, Buffer>)
    requires |views| == |pads|
    ensures Refilled(views, pads, attached - Streams(pads)) == views
  {
    var after := Refilled(views, pads, attached - Streams(pads));
    forall k | 0 <= k < |pads|
      ensures after[k] == views[k]
    {
      assert pads[k].stream in Streams(pads);
    }
  }

  lemma RefilledAre(
      views: seq<PadView>, pads: seq<GstLibcameraPad>, attached: map<Stream, Buffer>, buffers: seq<Buffer>,
      pools: seq<seq<Buffer>>, pending: seq<seq<Buffer>>, pushed: seq<seq<Buffer>>)
    requires ViewsAre(views, pools, pending, pushed) && |views| == |pads| && Holds(attached, pads, buffers)
    ensures ViewsAre(Refilled(views, pads, attached), Joined(pools, buffers, 0), pending, pushed)
  {
  }

  /** The callback does to the pads what the steps of the loop come to. */
  lemma CompletionMatches(
      s: State, i: nat, cancelled: bool, views: seq<PadView>, wraps: seq<WrapView>, pads: seq<GstLibcameraPad>)
    requires Shows(views, wraps, pads, s.task, s) && |views| == |pads|
    requires i < |s.camera| && wraps != []
    ensures
      var delivered := wraps[0].request == s.camera[i].address && !cancelled;
      Shows(AfterWrap(views, pads, wraps[0].attached, delivered), wraps[1..], pads,
            if delivered then Resumed(s.task) else s.task, Completed(s, i, cancelled))
  {
    CompletedShaped(s, i, cancelled);
    assert Completed(s, i, cancelled).requests == s.requests[1..];
    assert |s.requests[0].buffers| == |pads|;
    hide Shaped, ViewsAre, Holds, Handed, Refilled, Joined;
    if wraps[0].request == s.camera[i].address && !cancelled {
      HandedAre(views, pads, wraps[0].attached, s.requests[0].buffers, s.pools, s.pending, s.pushed);
    } else {
      RefilledAre(views, pads, wraps[0].attached, s.requests[0].buffers, s.pools, s.pending, s.pushed);
    }
  }

  /** Two states with the same requests and history. */
  predicate SameRequests(s: State, after: State) {
    && after.requests == s.requests && after.camera == s.camera && after.queued == s.queued
    && after.callback == s.callback && after.task == s.task && after.address == s.address && |after.pools| == |s.pools|
  }

  /** The task function is at s, with these pads, and its surroundings will answer so. */
  predicate InTask(s: State, views: seq<PadView>, env: Answers) {
    PadsMatch(views, s) && Unlocked(s) && |env.prepared| == |env.flows| == |views| == |s.pools|
  }

  lemma AcquirePad(views: seq<PadView>, s: State, env: Answers)
    requires InTask(s, views, env) && s.position.Acquiring?
    ensures
      var k, n := |s.position.held|, |s.pools|;
      && k < n == |views| && views[k].pool == s.pools[k]
      && (var after := AfterAcquire(s, env.prepared[k]);
          && (if s.pools[k] == [] then InTask(after, views, env)
              else InTask(after, views[k := views[k].(pool := s.pools[k][1..])], env))
          && SameRequests(s, after) && after.flowOk == s.flowOk && Finish(after, env) == Finish(s, env)
          && after.position
             == if s.pools[k] != [] && env.prepared[k] then Acquired(s.position.held + [s.pools[k][0]], n)
                else PushFrom(0, s.position.held, n))
  {
    var a := TaskAction(s, env);
    assert Next(s, a) == AfterAcquire(s, env.prepared[|s.position.held|]);
    TaskStep(s, env);
    hide Somes;
  }

  lemma HoldsNext(
      attached: map<Stream, Buffer>, pads: seq<GstLibcameraPad>, buffers: seq<Buffer>, buffer: Buffer)
    requires Holds(attached, pads, buffers) && |buffers| < |pads|
    requires forall i, j | 0 <= i < j < |pads| :: pads[i].stream != pads[j].stream
    ensures Holds(attached[pads[|buffers|].stream := buffer], pads, buffers + [buffer])
  {
  }

  /** A pad whose queue was fifo has given away its oldest buffer, if there was one. */
  predicate GaveOldest(was: PadView, now: PadView) {
    && now.pool == was.pool
    && (if was.pending == [] then now.pending == [] && now.pushed == was.pushed
        else [was.pending[0]] + now.pending == was.pending && now.pushed == was.pushed + ToSeq(was.pending[0]))
  }

  lemma PushPad(views: seq<PadView>, now: PadView, s: State, env: Answers)
    requires InTask(s, views, env) && s.position.Pushing? && GaveOldest(views[s.position.pad], now)
    ensures
      var k := s.position.pad;
      var after := AfterPush(s, env.flows[k]);
      && InTask(after, views[k := now], env) && SameRequests(s, after) && Finish(after, env) == Finish(s, env)
      && after.flowOk == env.flows[k] && after.position == PushFrom(k + 1, s.position.held, |s.pools|)
  {
    var k := s.position.pad;
    var after := AfterPush(s, env.flows[k]);
    var a := TaskAction(s, env);
    assert Next(s, a) == after;
    TaskStep(s, env);
    var q := s.pending[k];
    assert views[k].pending == Somes(q);
    if q != [] {
      assert now.pending == views[k].pending[1..] == Somes(q)[1..] == Somes(q[1..]);
    }
    assert now == PadView(after.pools[k], Somes(after.pending[k]), after.pushed[k]);
    hide Somes;
  }

  lemma BeginTask(s: State, views: seq<PadView>, env: Answers, address: nat)
    requires PadsMatch(views, s) && Enabled(s, Begin(address)) && Unlocked(s)
    requires |env.prepared| == |env.flows| == |views|
    ensures
      var after := Next(s, Begin(address));
      && InTask(after, views, env) && SameRequests(s.(address := address), after) && after.flowOk
      && after.position == Acquired([], |views|)
  {
  }

  lemma QueueWrap(
      s: State, views: seq<PadView>, wraps: seq<WrapView>, wrap: WrapView, pads: seq<GstLibcameraPad>, env: Answers)
    requires InTask(s, views, env) && s.position.Queueing?
    requires WrapsMatch(wraps, pads, s.requests) && wrap.request == s.address && Holds(wrap.attached, pads, s.position.held)
    ensures
      var after := Next(s, Queue(env.accepted));
      && InTask(after, views, env) && WrapsMatch(wraps + [wrap], pads, after.requests)
      && after.task == s.task && after.flowOk == s.flowOk && after.position == PushFrom(0, [], |views|)
      && Holds(map[], pads, [])
      && Finish(after, env) == Finish(s, env)
  {
    TaskStep(s, env);
    assert Holds(map[], pads, []);
    hide Holds, Somes;
  }

  lemma DecideTask(s: State, views: seq<PadView>, env: Answers)
    requires InTask(s, views, env) && s.position.Deciding?
    ensures
      var after := Next(s, Decide);
      && InTask(after, views, env) && after.requests == s.requests
      && after.position == Releasing(s.position.held) && Finish(after, env) == Finish(s, env)
      && after.task
         == (if !s.flowOk then Stopped
             else if s.task.Started? && (forall k | 0 <= k < |views| :: views[k].pending == []) then Paused
             else s.task)
  {
    TaskStep(s, env);
    assert forall k | 0 <= k < |views| :: views[k].pending == [] <==> s.pending[k] == [];
  }

  lemma ReleaseWrap(
      s: State, views: seq<PadView>, wraps: seq<WrapView>, attached: map<Stream, Buffer>, pads: seq<GstLibcameraPad>,
      env: Answers)
    requires InTask(s, views, env) && s.position.Releasing? && |views| == |pads|
    requires WrapsMatch(wraps, pads, s.requests) && Holds(attached, pads, s.position.held)
    ensures Shows(Refilled(views, pads, attached), wraps, pads, s.task, Finish(s, env))
    ensures attached == map[] ==> Refilled(views, pads, attached) == views
  {
    FinishReleases(s, env);
    RefilledAre(views, pads, attached, s.position.held, s.pools, s.pending, s.pushed);
    hide WrapsMatch;
  }

  /** Pads of different streams with these pools, and nothing pending or pushed. */
  ghost predicate NewPads(pads: seq<GstLibcameraPad>, pools: seq<seq<Buffer>>)
    reads pads
  {
    && |pools| == |pads|
    && (forall i, j | 0 <= i < j < |pads| :: pads[i] != pads[j] && pads[i].stream != pads[j].stream)
    && forall k | 0 <= k < |pads| :: pads[k].View() == PadView(pools[k], [], [])
  }

  class GstLibcameraSrcState {
    var requests: seq<RequestWrap>
    const srcpads: seq<GstLibcameraPad>
    var task: TaskState

    /** With new pads, whose pools are those of s, a session begins. */
    constructor (srcpads: seq<GstLibcameraPad>, ghost s: State)
      ensures this.srcpads == srcpads && requests == [] && task == Started
      ensures Start(s) && s.task.Started? && NewPads(srcpads, s.pools) ==> Represents(s)
    {
      this.srcpads, requests, task := srcpads, [], Started;
      new;
      if Start(s) && NewPads(srcpads, s.pools) {
        assert forall k | 0 <= k < |srcpads| :: s.pending[k] == [] && s.pushed[k] == [] && Somes([]) == [];
      }
    }

    /** Each pad has a stream of its own, and each request a wrap. */
    ghost predicate Valid()
      reads this`requests
    {
      && (forall i, j | 0 <= i < j < |srcpads| :: srcpads[i] != srcpads[j])
      && (forall i, j | 0 <= i < j < |srcpads| :: srcpads[i].stream != srcpads[j].stream)
      && (forall i, j | 0 <= i < j < |requests| :: requests[i] != requests[j])
    }

    ghost function Views(): (views: seq<PadView>)
      reads srcpads
      ensures |views| == |srcpads|
    {
      seq(|srcpads|, k requires 0 <= k < |srcpads| reads srcpads => srcpads[k].View())
    }

    ghost function Wraps(): (wraps: seq<WrapView>)
      reads this`requests, requests
      ensures |wraps| == |requests|
    {
      var all := requests;
      seq(|all|, k requires 0 <= k < |all| reads all => all[k].View())
    }

    /** The objects are in a state of the loop. Where the threads are in their functions, and what is in the
      * camera and downstream, is not theirs to say. */
    ghost predicate Represents(s: State)
      reads this, srcpads, requests
    {
      Valid() && Shows(Views(), Wraps(), srcpads, task, s)
    }

    /** The loop over the pads: each gets the buffer of its stream. */
    method DeliverAll(wrap: RequestWrap)
      requires Valid()
      modifies srcpads`pendingBuffers, wrap
      ensures Attached(wrap.buffers) == Attached(old(wrap.buffers)) - Streams(srcpads)
      ensures Views() == Handed(old(Views()), srcpads, Attached(old(wrap.buffers)))
    {
      hide Reversed, Attached, Find, Streams;
      ghost var had := Attached(wrap.buffers);
      NoStreams(srcpads[..0], had);
      for i := 0 to |srcpads|
        invariant Attached(wrap.buffers) == had - Streams(srcpads[..i])
        invariant forall j | 0 <= j < i ::
          srcpads[j].Fifo() == old(srcpads[j].Fifo()) + [Find(had, srcpads[j].stream)]
        invariant forall j | i <= j < |srcpads| :: srcpads[j].pendingBuffers == old(srcpads[j].pendingBuffers)
      {
        var srcpad := srcpads[i];
        StreamsSnoc(srcpads, i);
        FindLess(had, Streams(srcpads[..i]), srcpad.stream);
        var buffer := wrap.DetachBuffer(srcpad.stream);
        srcpad.QueueBuffer(buffer);
      }
      assert srcpads[..|srcpads|] == srcpads;
    }

    /** The destructor of a wrap: its buffers lose their last reference and go back to the pools. In which
      * order makes no difference, as each is for another pool. */
    method DropAll(wrap: RequestWrap) returns (unref: map<Stream, Buffer>)
      requires Valid()
      modifies srcpads`pool
      ensures unref == Attached(wrap.buffers)
      ensures Views() == Refilled(old(Views()), srcpads, unref)
    {
      unref := wrap.Destroy();
      hide Attached, Reversed;
      for i := 0 to |srcpads|
        invariant forall j | 0 <= j < i ::
          srcpads[j].pool == old(srcpads[j].pool) + ToSeq(Find(unref, srcpads[j].stream))
        invariant forall j | i <= j < |srcpads| :: srcpads[j].pool == old(srcpads[j].pool)
      {
        if srcpads[i].stream in unref {
          srcpads[i].ReleaseBuffer(unref[srcpads[i].stream]);
        }
      }
    }

    /** requestCompleted(): the front wrap is taken off. If it is for this request, which was not cancelled,
      * every pad gets its buffer and a paused task is resumed; otherwise nothing but the loss of the wrap
      * happens. Either way each buffer that is not delivered is dropped. If the objects were in state s of the
      * loop, whose i-th request in flight this is, they have taken all the steps of the callback. */
    method RequestCompleted(request: nat, cancelled: bool, ghost s: State, ghost i: nat)
        returns (unref: map<Stream, Buffer>)
      requires Valid() && requests != []
      modifies this`requests, this`task, srcpads`pendingBuffers, srcpads`pool, requests[0]
      ensures Valid() && requests == old(requests)[1..] && Wraps() == old(Wraps())[1..]
      ensures
        var had := Attached(old(requests[0].buffers));
        var delivered := old(requests)[0].request == request && !cancelled;
        && Views() == AfterWrap(old(Views()), srcpads, had, delivered)
        && task == (if delivered then Resumed(old(task)) else old(task))
        && unref == if delivered then had - Streams(srcpads) else had
      ensures
        old(Represents(s)) && i < |s.camera| && s.camera[i].address == request ==> Represents(Completed(s, i, cancelled))
    {
      hide Attached, Reversed, Streams, Resumed, AfterWrap, Completed, PadsMatch, WrapsMatch;
      if Represents(s) && i < |s.camera| && s.camera[i].address == request {
        CompletionMatches(s, i, cancelled, Views(), Wraps(), srcpads);
      }
      hide Shows;
      var wrap := requests[0];
      requests := requests[1..];
      unref := CompleteWrap(wrap, wrap.request == request && !cancelled);
    }

    /** The rest of it, for the wrap that was taken off. */
    method CompleteWrap(wrap: RequestWrap, delivered: bool) returns (unref: map<Stream, Buffer>)
      requires Valid()
      modifies this`task, srcpads`pendingBuffers, srcpads`pool, wrap
      ensures Views() == AfterWrap(old(Views()), srcpads, Attached(old(wrap.buffers)), delivered)
      ensures task == if delivered then Resumed(old(task)) else old(task)
      ensures
        unref == if delivered then Attached(old(wrap.buffers)) - Streams(srcpads) else Attached(old(wrap.buffers))
    {
      hide Attached, Streams, Handed, Refilled;
      if delivered {
        DeliverAll(wrap);
        if task.Paused? {
          task := Started;
        }
      }
      unref := DropAll(wrap);
    }

    /** The first loop of the task function: a buffer for every pad, or not all of them. */
    method AcquireAll(wrap: RequestWrap, env: Answers, ghost s: State) returns (ok: bool, ghost after: State)
      requires Valid() && InTask(s, Views(), env) && s.position == Acquired([], |srcpads|)
      requires Attached(wrap.buffers) == map[]
      modifies srcpads`pool, wrap
      ensures InTask(after, Views(), env) && SameRequests(s, after) && after.flowOk == s.flowOk
      ensures !after.position.Resting? && Holds(Attached(wrap.buffers), srcpads, after.position.held)
      ensures
        if ok then after.position == Queueing(after.position.held)
        else after.position == PushFrom(0, after.position.held, |srcpads|)
      ensures Finish(after, env) == Finish(s, env)
    {
      hide Attached, Reversed, Shaped, AfterAcquire, Finish, ViewsAre;
      after := s;
      ok := true;
      for i := 0 to |srcpads|
        invariant InTask(after, Views(), env) && SameRequests(s, after) && after.flowOk == s.flowOk
        invariant !after.position.Resting? && |after.position.held| == i
        invariant after.position == Acquired(after.position.held, |srcpads|)
        invariant Holds(Attached(wrap.buffers), srcpads, after.position.held)
        invariant Finish(after, env) == Finish(s, env)
      {
        var srcpad := srcpads[i];
        ghost var views, held := Views(), after.position.held;
        AcquirePad(views, after, env);
        var buffer := srcpad.AcquireBuffer(env.prepared[i]);
        assert Views() == if views[i].pool == [] then views else views[i := views[i].(pool := views[i].pool[1..])];
        after := AfterAcquire(after, env.prepared[i]);
        if buffer.None? {
          return false, after;
        }
        HoldsNext(Attached(wrap.buffers), srcpads, held, buffer.value);
        var _ := wrap.AttachBuffer(srcpad.stream, buffer.value);
      }
    }

    /** The second loop: each pad pushes its oldest pending buffer. What the flow combiner says last counts. */
    method PushAll(env: Answers, ghost s: State) returns (flowOk: bool, ghost after: State)
      requires Valid() && InTask(s, Views(), env) && s.flowOk && (s.position.Pushing? || s.position.Deciding?)
      requires s.position == PushFrom(0, s.position.held, |srcpads|)
      modifies srcpads`pendingBuffers, srcpads`pushed
      ensures InTask(after, Views(), env) && SameRequests(s, after) && after.flowOk == flowOk
      ensures after.position == Deciding(s.position.held)
      ensures Finish(after, env) == Finish(s, env)
    {
      hide Shaped, AfterPush, Finish, GaveOldest, ViewsAre;
      after := s;
      flowOk := true;
      for i := 0 to |srcpads|
        invariant InTask(after, Views(), env) && SameRequests(s, after) && after.flowOk == flowOk
        invariant after.position == PushFrom(i, s.position.held, |srcpads|)
        invariant Finish(after, env) == Finish(s, env)
      {
        ghost var views := Views();
        var _ := srcpads[i].PushPending();
        ghost var now := srcpads[i].View();
        assert Views() == views[i := now];
        PushPad(views, now, after, env);
        flowOk := env.flows[i];
        after := AfterPush(after, env.flows[i]);
      }
    }

    method AnyPending() returns (r: bool)
      ensures r <==> exists k | 0 <= k < |srcpads| :: Views()[k].pending != []
    {
      for i := 0 to |srcpads|
        invariant forall k | 0 <= k < i :: Views()[k].pending == []
      {
        var pending := srcpads[i].HasPending();
        if pending {
          assert Views()[i].pending != [];
          return true;
        }
      }
      r := false;
    }

    /** gst_libcamera_src_task_run(), whose new request is at an address that is free. If the objects were in state s
      * of the loop, they have taken all the steps of one turn of the task. */
    method TaskRun(request: nat, env: Answers, ghost s: State) returns (ghost after: State)
      requires Represents(s) && Enabled(s, Begin(request)) && Unlocked(s)
      requires |srcpads| == |env.prepared| == |env.flows|
      modifies this`requests, this`task, srcpads
      ensures forall w <- requests :: w in old(requests) || fresh(w)
      ensures after == Finish(Next(s, Begin(request)), env) && Represents(after)
    {
      ghost var begun := Next(s, Begin(request));
      BeginTask(s, Views(), env, request);
      var wrap;
      wrap, after := MakeRequest(request, env, begun);
      after := FinishTurn(wrap, env, after);
    }

    /** The first half: the request and its wrap, which is queued unless a pad has no buffer. */
    method MakeRequest(request: nat, env: Answers, ghost s: State)
        returns (wrap: Option<RequestWrap>, ghost after: State)
      requires InTurn(s, env) && s.position == Acquired([], |srcpads|) && request == s.address
      modifies this`requests, srcpads`pool
      ensures forall w <- requests :: w in old(requests) || fresh(w)
      ensures InTurn(after, env) && AtPushing(after, wrap) && Finish(after, env) == Finish(s, env)
      ensures after.flowOk == s.flowOk && (wrap.Some? ==> fresh(wrap.value))
    {
      var w := new RequestWrap(request);
      hide Shaped, Finish, ViewsAre, WrapsMatch, Holds;
      var queueing;
      queueing, after := AcquireAll(w, env, s);
      if queueing {
        QueueWrap(after, Views(), Wraps(), w.View(), srcpads, env);
        requests := requests + [w];
        assert Wraps() == old(Wraps()) + [w.View()];
        after := Next(after, Queue(env.accepted));
      }
      wrap := if queueing then None else Some(w);
    }

    /** The second half: all pads push, the task is paused or stopped if need be, and a wrap that was not
      * queued is destroyed. */
    method FinishTurn(wrap: Option<RequestWrap>, env: Answers, ghost s: State) returns (ghost after: State)
      requires InTurn(s, env) && AtPushing(s, wrap) && s.flowOk
      modifies this`task, srcpads
      ensures after == Finish(s, env) && Represents(after)
    {
      hide Shaped, Finish, WrapsMatch, ViewsAre, Attached;
      var flowOk;
      flowOk, after := PushAll(env, s);
      after := Decided(flowOk, env, after);
      after := DropWrap(wrap, env, after);
    }

    method Decided(flowOk: bool, env: Answers, ghost s: State) returns (ghost after: State)
      requires InTurn(s, env) && s.position.Deciding? && s.flowOk == flowOk
      modifies this`task
      ensures InTurn(after, env) && after.position == Releasing(s.position.held)
      ensures Finish(after, env) == Finish(s, env)
    {
      var pending := AnyPending();
      DecideTask(s, Views(), env);
      hide Shaped, Finish, WrapsMatch, ViewsAre;
      after := Next(s, Decide);
      if !flowOk {
        task := Stopped;
      } else if !pending && task.Started? {
        task := Paused;
      }
    }

    method DropWrap(wrap: Option<RequestWrap>, env: Answers, ghost s: State) returns (ghost after: State)
      requires InTurn(s, env) && s.position.Releasing?
      requires Holds(if wrap.Some? then Attached(wrap.value.buffers) else map[], srcpads, s.position.held)
      modifies srcpads`pool
      ensures after == Finish(s, env) && Represents(after)
    {
      hide Shaped, ViewsAre, Finish, Shows, Holds, Refilled, Attached, WrapsMatch;
      ghost var attached := if wrap.Some? then Attached(wrap.value.buffers) else map[];
      ReleaseWrap(s, Views(), Wraps(), attached, srcpads, env);
      after := Finish(s, env);
      if wrap.Some? {
        var _ := DropAll(wrap.value);
      }
    }

    /** The objects are in a state of the loop whose task function is running. */
    ghost predicate InTurn(s: State, env: Answers)
      reads this, srcpads, requests
    {
      Valid() && InTask(s, Views(), env) && WrapsMatch(Wraps(), srcpads, s.requests) && task == s.task
    }

    /** The task function is at its second loop, with a wrap unless that has been queued. */
    ghost predicate AtPushing(s: State, wrap: Option<RequestWrap>)
      reads if wrap.Some? then {wrap.value} else {}
    {
      && (s.position.Pushing? || s.position.Deciding?)
      && s.position == PushFrom(0, s.position.held, |srcpads|)
      && Holds(if wrap.Some? then Attached(wrap.value.buffers) else map[], srcpads, s.position.held)
    }
  }
}
