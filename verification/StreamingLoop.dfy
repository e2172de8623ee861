/** The streaming task and the request completion callback of the GStreamer source, interleaved. Each step
  * is one critical section; the callback holds the lock of the element from its first step to its last. */
module StreamingLoop {
  type Buffer = nat

  /** A request: its number in the order of queueing, which nobody looks at, and its address, which is free
    * for another one once it has been deleted. */
  datatype Request = Request(number: nat, address: nat)

  /** A queued request with a buffer for every pad. */
  datatype Wrap = Wrap(request: Request, buffers: seq<Buffer>)

  /** Where the streaming task is in its function. held are the buffers of the first pads, in a wrap
    * that has not been queued. */
  datatype Position =
    | Resting
    | Acquiring(held: seq<Buffer>)
    | Queueing(held: seq<Buffer>)
    | Pushing(pad: nat, held: seq<Buffer>)
    | Deciding(held: seq<Buffer>)
    | Releasing(held: seq<Buffer>)

  datatype TaskState = Started | Paused | Stopped

  /** Where the camera thread is in requestCompleted(), or about to delete the request that completed. */
  datatype Callback =
    | NoCallback
    | Delivering(wrap: Wrap, pad: nat)
    | Dropping(left: seq<Buffer>, address: nat)
    | Deleting(address: nat)

  /** What became of a request that was taken off the queue. */
  datatype Outcome = Delivered | Cancelled | Mismatched

  /** address is that of the request which the task has created last, and live those of all requests there are.
    * pools, pending, downstream and lost hold the buffers of each pad. camera has the requests in flight.
    * queued, accepted, finished, outcomes and pushed record what happened: the wraps queued, the numbers of the
    * requests that the camera accepted, those that it completed, what became of the wraps these met, and the
    * buffers pushed out of each pad. */
  datatype State = State(
    task: TaskState, position: Position, flowOk: bool, callback: Callback, address: nat, live: set<nat>,
    camera: seq<Request>, requests: seq<Wrap>,
    pools: seq<seq<Buffer>>, pending: seq<seq<Buffer>>, downstream: seq<seq<Buffer>>, lost: seq<seq<Buffer>>,
    queued: seq<Wrap>, accepted: seq<nat>, finished: seq<Request>, outcomes: seq<Outcome>, pushed: seq<seq<Buffer>>)

  datatype Action =
    | Begin(address: nat)
    | Acquire(prepared: bool)
    | Queue(accepted: bool)
    | Push(flowOk: bool)
    | Decide
    | ReleaseHeld
    | Complete(i: nat, cancelled: bool)
    | Deliver
    | EndDelivery
    | Drop
    | Delete
    | Play
    | Return(pad: nat, i: nat)

  function Pads(s: State): nat {
    |s.pools|
  }

  predicate Shaped(s: State) {
    var n := |s.pools|;
    && |s.pending| == |s.downstream| == |s.lost| == |s.pushed| == n
    && (forall i | 0 <= i < |s.requests| :: |s.requests[i].buffers| == n)
    && PositionOk(s.position, n) && CallbackOk(s.callback, n)
  }

  predicate PositionOk(p: Position, n: nat) {
    match p
    case Resting => true
    case Acquiring(held) => |held| < n
    case Queueing(held) => |held| == n
    case Pushing(pad, held) => pad < n && |held| <= n
    case Deciding(held) => |held| <= n
    case Releasing(held) => |held| <= n
  }

  predicate CallbackOk(c: Callback, n: nat) {
    match c
    case NoCallback => true
    case Delivering(wrap, pad) => |wrap.buffers| == n && pad <= n
    case Dropping(left, _) => |left| <= n
    case Deleting(_) => true
  }

  /** The camera thread does not hold the lock of the element. */
  predicate Unlocked(s: State) {
    s.callback.NoCallback? || s.callback.Deleting?
  }

  predicate Enabled(s: State, a: Action)
    requires Shaped(s)
  {
    match a
    case Begin(address) => s.position.Resting? && s.task.Started? && address !in s.live
    case Acquire(_) => s.position.Acquiring?
    case Queue(_) => s.position.Queueing? && Unlocked(s)
    case Push(_) => s.position.Pushing?
    case Decide => s.position.Deciding? && Unlocked(s)
    case ReleaseHeld => s.position.Releasing?
    case Complete(i, _) => i < |s.camera| && s.callback.NoCallback?
    case Deliver => s.callback.Delivering? && s.callback.pad < |s.pools|
    case EndDelivery => s.callback.Delivering? && s.callback.pad == |s.pools|
    case Drop => s.callback.Dropping?
    case Delete => s.callback.Deleting?
    case Play => !s.task.Stopped?
    case Return(pad, i) => pad < |s.downstream| && i < |s.downstream[pad]|
  }

  function Acquired(held: seq<Buffer>, n: nat): Position {
    if |held| < n then Acquiring(held) else Queueing(held)
  }

  /** The loop over the pads that push their pending buffers, from a pad on. */
  function PushFrom(pad: nat, held: seq<Buffer>, n: nat): Position {
    if pad < n then Pushing(pad, held) else Deciding(held)
  }

  function Next(s: State, a: Action): State
    requires Shaped(s) && Enabled(s, a)
  {
    match a
    case Begin(address) =>
      s.(position := Acquired([], |s.pools|), flowOk := true, address := address, live := s.live + {address})
    case Acquire(prepared) => AfterAcquire(s, prepared)
    case Queue(accepted) =>
      var wrap := NewWrap(s);
      s.(camera := if accepted then s.camera + [wrap.request] else s.camera,
         accepted := if accepted then s.accepted + [|s.queued|] else s.accepted,
         requests := s.requests + [wrap], queued := s.queued + [wrap],
         position := PushFrom(0, [], |s.pools|))
    case Push(flowOk) => AfterPush(s, flowOk)
    case Decide =>
      s.(position := Releasing(s.position.held),
         task := if !s.flowOk then Stopped else if s.task.Started? && NothingPending(s) then Paused else s.task)
    case ReleaseHeld => AfterRelease(s)
    case Complete(i, cancelled) => AfterComplete(s, i, cancelled)
    case Deliver =>
      var k := s.callback.pad;
      s.(callback := s.callback.(pad := k + 1),
         pending := s.pending[k := s.pending[k] + [s.callback.wrap.buffers[k]]])
    case EndDelivery =>
      s.(callback := Deleting(s.callback.wrap.request.address), task := if s.task.Paused? then Started else s.task)
    case Drop => AfterDrop(s)
    case Delete => s.(callback := NoCallback, live := s.live - {s.callback.address})
    case Play => s.(task := Started)
    case Return(k, i) =>
      s.(downstream := s.downstream[k := s.downstream[k][..i] + s.downstream[k][i + 1..]],
         pools := s.pools[k := s.pools[k] + [s.downstream[k][i]]])
  }

  /** The wrap that the task is about to queue. */
  function NewWrap(s: State): Wrap
    requires s.position.Queueing?
  {
    Wrap(Request(|s.queued|, s.address), s.position.held)
  }

  predicate NothingPending(s: State) {
    forall k | 0 <= k < |s.pending| :: s.pending[k] == []
  }

  /** A buffer of the pool of the next pad. Without one the request of this iteration is deleted; and so it is
    * when there is no frame for the buffer, which is then lost. */
  function AfterAcquire(s: State, prepared: bool): State
    requires Shaped(s) && s.position.Acquiring?
  {
    var held := s.position.held;
    var k := |held|;
    if s.pools[k] == [] then s.(position := PushFrom(0, held, |s.pools|), live := s.live - {s.address})
    else
      var b := s.pools[k][0];
      var rest := s.pools[k := s.pools[k][1..]];
      if prepared then s.(pools := rest, position := Acquired(held + [b], |s.pools|))
      else
        s.(pools := rest, lost := s.lost[k := s.lost[k] + [b]], position := PushFrom(0, held, |s.pools|),
           live := s.live - {s.address})
  }

  /** The destructor of a wrap gives a buffer back to the pool of its pad. */
  function AfterRelease(s: State): State
    requires Shaped(s) && s.position.Releasing?
  {
    var held := s.position.held;
    if held == [] then s.(position := Resting)
    else
      var k := |held| - 1;
      s.(position := Releasing(held[..k]), pools := s.pools[k := s.pools[k] + [held[k]]])
  }

  function AfterDrop(s: State): State
    requires Shaped(s) && s.callback.Dropping?
  {
    var left := s.callback.left;
    if left == [] then s.(callback := Deleting(s.callback.address))
    else
      var k := |left| - 1;
      s.(callback := s.callback.(left := left[..k]), pools := s.pools[k := s.pools[k] + [left[k]]])
  }

  /** The first pending buffer of a pad, if there is one. What the flow combiner says last counts. */
  function AfterPush(s: State, flowOk: bool): State
    requires Shaped(s) && s.position.Pushing?
  {
    var k := s.position.pad;
    var next := s.(position := PushFrom(k + 1, s.position.held, |s.pools|), flowOk := flowOk);
    if s.pending[k] == [] then next
    else
      var b := s.pending[k][0];
      next.(pending := s.pending[k := s.pending[k][1..]],
            pushed := s.pushed[k := s.pushed[k] + [b]],
            downstream := s.downstream[k := s.downstream[k] + [b]])
  }

  /** The camera completes a request: the front of the queue is taken off, and compared by address. */
  function AfterComplete(s: State, i: nat, cancelled: bool): State
    requires Shaped(s) && i < |s.camera|
  {
    var camera := s.camera[..i] + s.camera[i + 1..];
    if s.requests == [] then s.(camera := camera)
    else
      var wrap := s.requests[0];
      var r := s.camera[i];
      var outcome :=
        (if wrap.request.address != r.address then Mismatched else if cancelled then Cancelled else Delivered);
      s.(camera := camera, requests := s.requests[1..], finished := s.finished + [r], outcomes := s.outcomes + [outcome],
         callback := if outcome.Delivered? then Delivering(wrap, 0) else Dropping(wrap.buffers, r.address))
  }

  // --- No lost wakeup.

  /** A paused task has nothing to push, unless the callback is about to resume it. */
  predicate Woken(s: State) {
    s.task.Paused? ==> NothingPending(s) || s.callback.Delivering?
  }

  lemma StepKeepsWoken(s: State, a: Action)
    requires Shaped(s) && Enabled(s, a) && Woken(s)
    ensures Woken(Next(s, a))
  {
  }

  lemma StepShaped(s: State, a: Action)
    requires Shaped(s) && Enabled(s, a)
    ensures Shaped(Next(s, a)) && Pads(Next(s, a)) == Pads(s)
  {
    if a.Queue? {
      QueueShaped(s, a.accepted);
    } else if a.Complete? {
      CompleteShaped(s, a.i, a.cancelled);
    } else {
      OthersAside(s, a);
      OthersShaped(s, a);
      hide Next, Enabled;
    }
  }

  /** All other steps leave the requests alone. */
  lemma OthersAside(s: State, a: Action)
    requires Shaped(s) && Enabled(s, a) && !a.Queue? && !a.Complete?
    ensures
      var after := Next(s, a);
      && after.camera == s.camera && after.requests == s.requests && after.outcomes == s.outcomes
      && after.queued == s.queued && after.accepted == s.accepted && after.finished == s.finished
  {
  }

  lemma OthersShaped(s: State, a: Action)
    requires Shaped(s) && Enabled(s, a) && !a.Queue? && !a.Complete?
    ensures
      var after := Next(s, a);
      && |after.pools| == |after.pending| == |after.downstream| == |after.lost| == |after.pushed| == |s.pools|
      && PositionOk(after.position, |s.pools|) && CallbackOk(after.callback, |s.pools|)
  {
    if a.Begin? || a.Acquire? || a.Push? || a.Decide? || a.ReleaseHeld? {
      TaskShaped(s, a);
      hide Next, Enabled;
    } else {
      hide NothingPending;
    }
  }

  lemma TaskShaped(s: State, a: Action)
    requires Shaped(s) && Enabled(s, a) && (a.Begin? || a.Acquire? || a.Push? || a.Decide? || a.ReleaseHeld?)
    ensures
      var after := Next(s, a);
      && |after.pools| == |after.pending| == |after.downstream| == |after.lost| == |after.pushed| == |s.pools|
      && PositionOk(after.position, |s.pools|) && after.callback == s.callback
  {
    hide NothingPending;
  }

  lemma QueueShaped(s: State, accepted: bool)
    requires Shaped(s) && Enabled(s, Queue(accepted))
    ensures Shaped(Next(s, Queue(accepted))) && Pads(Next(s, Queue(accepted))) == Pads(s)
  {
  }

  lemma CompleteShaped(s: State, i: nat, cancelled: bool)
    requires Shaped(s) && Enabled(s, Complete(i, cancelled))
    ensures Shaped(Next(s, Complete(i, cancelled))) && Pads(Next(s, Complete(i, cancelled))) == Pads(s)
  {
  }

  // --- Every buffer has one owner.

  /** The buffers of a pad in a list of requests. */
  function Column(wraps: seq<Wrap>, k: nat): seq<Buffer> {
    if wraps == [] then []
    else
      var w := wraps[|wraps| - 1];
      Column(wraps[..|wraps| - 1], k) + if k < |w.buffers| then [w.buffers[k]] else []
  }

  function Count(q: seq<Buffer>, b: Buffer): nat {
    multiset(q)[b]
  }

  function At(bs: seq<Buffer>, k: nat, b: Buffer): nat {
    if k < |bs| && bs[k] == b then 1 else 0
  }

  function HeldAt(p: Position, k: nat, b: Buffer): nat {
    if p.Resting? then 0 else At(p.held, k, b)
  }

  function CallbackAt(c: Callback, k: nat, b: Buffer): nat {
    match c
    case NoCallback => 0
    case Delivering(wrap, pad) => if k < pad then 0 else At(wrap.buffers, k, b)
    case Dropping(left, _) => At(left, k, b)
    case Deleting(_) => 0
  }

  /** In how many places a buffer of a pad is: its pool, a wrap being filled or queued, the callback, the
    * queue of the pad, downstream, or lost. */
  function Owners(s: State, k: nat, b: Buffer): nat
    requires Shaped(s) && k < |s.pools|
  {
    Count(s.pools[k], b) + HeldAt(s.position, k, b) + Count(Column(s.requests, k), b) + CallbackAt(s.callback, k, b)
    + Count(s.pending[k], b) + Count(s.downstream[k], b) + Count(s.lost[k], b)
  }

  lemma ColumnSnoc(wraps: seq<Wrap>, w: Wrap, k: nat)
    ensures Column(wraps + [w], k) == Column(wraps, k) + if k < |w.buffers| then [w.buffers[k]] else []
  {
    assert (wraps + [w])[..|wraps|] == wraps;
  }

  lemma {:induction false} ColumnTail(wraps: seq<Wrap>, k: nat)
    requires wraps != []
    ensures Column(wraps, k) == (if k < |wraps[0].buffers| then [wraps[0].buffers[k]] else []) + Column(wraps[1..], k)
    decreases |wraps|
  {
    var n := |wraps| - 1;
    if n > 0 {
      ColumnTail(wraps[..n], k);
      assert wraps[..n][1..] == wraps[1..][..n - 1];
    }
  }

  lemma CountSnoc(q: seq<Buffer>, x: Buffer, b: Buffer)
    ensures Count(q + [x], b) == Count(q, b) + if x == b then 1 else 0
  {
  }

  lemma CountTail(q: seq<Buffer>, b: Buffer)
    requires q != []
    ensures Count(q, b) == (if q[0] == b then 1 else 0) + Count(q[1..], b)
  {
    assert q == [q[0]] + q[1..];
  }

  lemma CountRemoved(q: seq<Buffer>, i: nat, b: Buffer)
    requires i < |q|
    ensures Count(q, b) == Count(q[..i] + q[i + 1..], b) + if q[i] == b then 1 else 0
  {
    assert q == q[..i] + [q[i]] + q[i + 1..];
  }

  lemma CountColumnSnoc(wraps: seq<Wrap>, w: Wrap, k: nat, b: Buffer)
    ensures Count(Column(wraps + [w], k), b) == Count(Column(wraps, k), b) + At(w.buffers, k, b)
  {
    ColumnSnoc(wraps, w, k);
  }

  lemma CountColumnTail(wraps: seq<Wrap>, k: nat, b: Buffer)
    requires wraps != []
    ensures Count(Column(wraps, k), b) == At(wraps[0].buffers, k, b) + Count(Column(wraps[1..], k), b)
  {
    ColumnTail(wraps, k);
  }

  lemma AcquireMoves(s: State, prepared: bool)
    requires Shaped(s) && s.position.Acquiring?
    ensures
      var held, after := s.position.held, AfterAcquire(s, prepared);
      var h := |held|;
      && h < |s.pools| && h < |s.lost|
      && after.requests == s.requests && after.callback == s.callback && after.pending == s.pending
      && after.downstream == s.downstream
      && (if s.pools[h] == [] then after.pools == s.pools && after.lost == s.lost && after.position.held == held
          else
            && after.pools == s.pools[h := s.pools[h][1..]]
            && after.lost == (if prepared then s.lost else s.lost[h := s.lost[h] + [s.pools[h][0]]])
            && after.position.held == (if prepared then held + [s.pools[h][0]] else held))
      && !after.position.Resting?
  {
  }

  lemma AcquireConserves(s: State, prepared: bool, k: nat, b: Buffer)
    requires Shaped(s) && s.position.Acquiring? && k < |s.pools|
    requires Shaped(AfterAcquire(s, prepared))
    ensures Owners(AfterAcquire(s, prepared), k, b) == Owners(s, k, b)
  {
    AcquireMoves(s, prepared);
    hide AfterAcquire, Count, Column, CallbackAt;
    var h := |s.position.held|;
    if s.pools[h] != [] {
      CountTail(s.pools[h], b);
      CountSnoc(s.lost[h], s.pools[h][0], b);
    }
  }

  lemma QueueMoves(s: State, accepted: bool)
    requires Shaped(s) && Enabled(s, Queue(accepted))
    ensures
      var after := Next(s, Queue(accepted));
      && after.pools == s.pools && after.pending == s.pending && after.downstream == s.downstream && after.lost == s.lost
      && after.callback == s.callback && after.requests == s.requests + [NewWrap(s)]
      && !after.position.Resting? && after.position.held == []
  {
  }

  lemma QueueConserves(s: State, accepted: bool, k: nat, b: Buffer)
    requires Shaped(s) && Enabled(s, Queue(accepted)) && k < |s.pools|
    requires Shaped(Next(s, Queue(accepted)))
    ensures Owners(Next(s, Queue(accepted)), k, b) == Owners(s, k, b)
  {
    QueueMoves(s, accepted);
    hide Next, Count, Column, CallbackAt;
    CountColumnSnoc(s.requests, NewWrap(s), k, b);
  }

  lemma PushConserves(s: State, flowOk: bool, k: nat, b: Buffer)
    requires Shaped(s) && s.position.Pushing? && k < |s.pools|
    requires Shaped(AfterPush(s, flowOk))
    ensures Owners(AfterPush(s, flowOk), k, b) == Owners(s, k, b)
  {
    var after, h := AfterPush(s, flowOk), s.position.pad;
    if s.pending[h] == [] {
      assert after.pending == s.pending && after.downstream == s.downstream;
    } else {
      CountTail(s.pending[h], b);
      CountSnoc(s.downstream[h], s.pending[h][0], b);
      assert after.pending == s.pending[h := s.pending[h][1..]];
      assert after.downstream == s.downstream[h := s.downstream[h] + [s.pending[h][0]]];
    }
    assert HeldAt(after.position, k, b) == HeldAt(s.position, k, b);
    assert after.pools == s.pools && after.requests == s.requests && after.callback == s.callback && after.lost == s.lost;
    hide AfterPush, Shaped, Count, Column, HeldAt, CallbackAt;
  }

  lemma CompleteMoves(s: State, i: nat, cancelled: bool)
    requires Shaped(s) && Enabled(s, Complete(i, cancelled))
    ensures
      var after := AfterComplete(s, i, cancelled);
      && after.pools == s.pools && after.position == s.position && after.pending == s.pending
      && after.downstream == s.downstream && after.lost == s.lost
      && (if s.requests == [] then after.requests == [] && after.callback.NoCallback?
          else
            && after.requests == s.requests[1..]
            && (after.callback == Delivering(s.requests[0], 0)
                || after.callback == Dropping(s.requests[0].buffers, s.camera[i].address)))
  {
  }

  lemma CompleteConserves(s: State, i: nat, cancelled: bool, k: nat, b: Buffer)
    requires Shaped(s) && Enabled(s, Complete(i, cancelled)) && k < |s.pools|
    requires Shaped(AfterComplete(s, i, cancelled))
    ensures Owners(AfterComplete(s, i, cancelled), k, b) == Owners(s, k, b)
  {
    CompleteMoves(s, i, cancelled);
    assert s.callback.NoCallback?;
    hide AfterComplete, Enabled, Shaped, Count, Column, HeldAt, At;
    if s.requests != [] {
      CountColumnTail(s.requests, k, b);
    }
  }

  lemma DeliverConserves(s: State, k: nat, b: Buffer)
    requires Shaped(s) && Enabled(s, Deliver) && k < |s.pools|
    requires Shaped(Next(s, Deliver))
    ensures Owners(Next(s, Deliver), k, b) == Owners(s, k, b)
  {
    var after, wrap, h := Next(s, Deliver), s.callback.wrap, s.callback.pad;
    CountSnoc(s.pending[h], wrap.buffers[h], b);
    assert after.pending == s.pending[h := s.pending[h] + [wrap.buffers[h]]];
    assert CallbackAt(s.callback, k, b) == CallbackAt(after.callback, k, b) + if k == h then At(wrap.buffers, k, b) else 0;
    assert after.pools == s.pools && after.position == s.position && after.requests == s.requests;
    assert after.downstream == s.downstream && after.lost == s.lost;
    hide Next, Enabled, Shaped, Count, Column, HeldAt, CallbackAt;
  }

  lemma DropConserves(s: State, k: nat, b: Buffer)
    requires Shaped(s) && s.callback.Dropping? && k < |s.pools|
    requires Shaped(AfterDrop(s))
    ensures Owners(AfterDrop(s), k, b) == Owners(s, k, b)
  {
    hide Count, Column, HeldAt;
    var left := s.callback.left;
    if left != [] {
      CountSnoc(s.pools[|left| - 1], left[|left| - 1], b);
    }
  }

  lemma EndDeliveryConserves(s: State, k: nat, b: Buffer)
    requires Shaped(s) && Enabled(s, EndDelivery) && k < |s.pools|
    requires Shaped(Next(s, EndDelivery))
    ensures Owners(Next(s, EndDelivery), k, b) == Owners(s, k, b)
  {
    hide Count, Column, HeldAt;
  }

  lemma TaskConserves(s: State, a: Action, k: nat, b: Buffer)
    requires Shaped(s) && Enabled(s, a) && k < |s.pools|
    requires a.Begin? || a.Decide? || a.Play? || a.Delete?
    requires Shaped(Next(s, a))
    ensures Owners(Next(s, a), k, b) == Owners(s, k, b)
  {
    hide Count, Column, NothingPending;
  }

  lemma ReleaseConserves(s: State, k: nat, b: Buffer)
    requires Shaped(s) && s.position.Releasing? && k < |s.pools|
    requires Shaped(AfterRelease(s))
    ensures Owners(AfterRelease(s), k, b) == Owners(s, k, b)
  {
    hide Count, Column, CallbackAt;
    var held := s.position.held;
    if held != [] {
      CountSnoc(s.pools[|held| - 1], held[|held| - 1], b);
    }
  }

  lemma ReturnConserves(s: State, pad: nat, i: nat, k: nat, b: Buffer)
    requires Shaped(s) && Enabled(s, Return(pad, i)) && k < |s.pools|
    requires Shaped(Next(s, Return(pad, i)))
    ensures Owners(Next(s, Return(pad, i)), k, b) == Owners(s, k, b)
  {
    CountRemoved(s.downstream[pad], i, b);
    CountSnoc(s.pools[pad], s.downstream[pad][i], b);
    hide Count, Column, CallbackAt, HeldAt;
  }

  /** No step creates, destroys or copies a buffer. */
  lemma StepConserves(s: State, a: Action, k: nat, b: Buffer)
    requires Shaped(s) && Enabled(s, a) && k < |s.pools|
    ensures Shaped(Next(s, a)) && k < Pads(Next(s, a)) && Owners(Next(s, a), k, b) == Owners(s, k, b)
  {
    StepShaped(s, a);
    hide Owners, Shaped;
    match a
    case Acquire(prepared) => AcquireConserves(s, prepared, k, b);
    case Queue(accepted) => QueueConserves(s, accepted, k, b);
    case Push(flowOk) => PushConserves(s, flowOk, k, b);
    case Complete(i, cancelled) => CompleteConserves(s, i, cancelled, k, b);
    case Return(pad, i) => ReturnConserves(s, pad, i, k, b);
    case Begin(_) => TaskConserves(s, a, k, b);
    case Play => TaskConserves(s, a, k, b);
    case Delete => TaskConserves(s, a, k, b);
    case Decide => TaskConserves(s, a, k, b);
    case ReleaseHeld => ReleaseConserves(s, k, b);
    case Deliver => DeliverConserves(s, k, b);
    case Drop => DropConserves(s, k, b);
    case EndDelivery => EndDeliveryConserves(s, k, b);
  }

  /** The task takes a buffer out of the pool of a pad. */
  predicate TakesFrom(s: State, a: Action, k: nat)
    requires k < |s.pools|
  {
    a.Acquire? && s.position.Acquiring? && |s.position.held| == k && s.pools[k] != []
  }

  /** A pool is a queue: it only loses its first buffer, to the task, and only gains one at its end. */
  lemma StepPools(s: State, a: Action, k: nat)
    requires Shaped(s) && Enabled(s, a) && k < |s.pools|
    ensures
      var after := Next(s, a);
      var kept := if TakesFrom(s, a, k) then s.pools[k][1..] else s.pools[k];
      k < |after.pools| && (after.pools[k] == kept || exists b :: after.pools[k] == kept + [b])
  {
    StepShaped(s, a);
    if a.Queue? || a.Complete? {
      assert Next(s, a).pools == s.pools;
    }
    hide Shaped;
  }

  /** The task stops when the last flow failed, and pauses when there is nothing left to push; what the flow combiner
    * says about the last pad is all that counts. */
  lemma DecideIff(s: State)
    requires Shaped(s) && Enabled(s, Decide)
    ensures
      var after := Next(s, Decide).task;
      && (after.Stopped? <==> s.task.Stopped? || !s.flowOk)
      && (after.Paused? <==> s.flowOk && (s.task.Paused? || (s.task.Started? && forall k | 0 <= k < |s.pending| :: s.pending[k] == [])))
  {
    hide Shaped;
  }

  // --- Buffers leave in the order in which their requests were queued.

  /** The buffers that the first m completed requests deliver to a pad, in the order of the queue. */
  function DeliveredTo(queued: seq<Wrap>, outcomes: seq<Outcome>, m: nat, k: nat): seq<Buffer>
    requires m <= |outcomes| && m <= |queued|
  {
    if m == 0 then []
    else
      var w := queued[m - 1];
      DeliveredTo(queued, outcomes, m - 1, k)
      + if outcomes[m - 1].Delivered? && k < |w.buffers| then [w.buffers[k]] else []
  }

  /** The completed requests whose delivery has got past a pad. */
  function Done(s: State, k: nat): int {
    if s.callback.Delivering? && k >= s.callback.pad then |s.outcomes| - 1 else |s.outcomes|
  }

  /** The history agrees with the queue of requests, and the callback with the last outcome. At least as
    * many requests are queued as are in flight. */
  predicate Recorded(s: State) {
    && |s.queued| == |s.outcomes| + |s.requests|
    && s.requests == s.queued[|s.outcomes|..]
    && (forall i | 0 <= i < |s.queued| :: s.queued[i].request.number == i && |s.queued[i].buffers| == |s.pools|)
    && |s.camera| <= |s.requests|
    && (forall i | 0 <= i < |s.camera| ::
          s.camera[i].number < |s.queued| && s.camera[i] == s.queued[s.camera[i].number].request)
    && (s.callback.Delivering? ==>
          && |s.outcomes| > 0 && s.outcomes[|s.outcomes| - 1].Delivered?
          && s.callback.wrap == s.queued[|s.outcomes| - 1])
  }

  /** What a pad has pushed and still holds is what completed requests delivered, in queue order. */
  predicate PadInOrder(s: State, k: nat)
    requires k < |s.pushed| && k < |s.pending| && Recorded(s)
  {
    s.pushed[k] + s.pending[k] == DeliveredTo(s.queued, s.outcomes, Done(s, k), k)
  }

  ghost predicate Inv(s: State) {
    && Shaped(s) && Woken(s) && Recorded(s)
    && forall k | 0 <= k < |s.pools| :: PadInOrder(s, k)
  }

  lemma {:induction false} DeliveredPrefix(
      queued: seq<Wrap>, outcomes: seq<Outcome>, queued': seq<Wrap>, outcomes': seq<Outcome>, m: nat, k: nat)
    requires m <= |outcomes| && m <= |queued| && queued <= queued' && outcomes <= outcomes'
    ensures DeliveredTo(queued', outcomes', m, k) == DeliveredTo(queued, outcomes, m, k)
    decreases m
  {
    if m > 0 {
      DeliveredPrefix(queued, outcomes, queued', outcomes', m - 1, k);
    }
  }

  lemma StepRecorded(s: State, a: Action)
    requires Shaped(s) && Recorded(s) && Enabled(s, a)
    ensures Recorded(Next(s, a))
    ensures s.queued <= Next(s, a).queued && s.outcomes <= Next(s, a).outcomes
  {
    if a.Queue? {
      QueueRecorded(s, a.accepted);
    } else if a.Complete? {
      CompleteRecorded(s, a.i, a.cancelled);
    } else {
      OthersAside(s, a);
      OthersShaped(s, a);
      CallbackMoves(s, a);
      hide Next, Enabled, Shaped;
    }
  }

  lemma QueueRecorded(s: State, accepted: bool)
    requires Shaped(s) && Recorded(s) && Enabled(s, Queue(accepted))
    ensures Recorded(Next(s, Queue(accepted)))
    ensures s.queued <= Next(s, Queue(accepted)).queued && s.outcomes == Next(s, Queue(accepted)).outcomes
  {
    var after := Next(s, Queue(accepted));
    assert after.queued[|s.outcomes|..] == s.requests + [NewWrap(s)];
  }

  lemma CompleteRecorded(s: State, i: nat, cancelled: bool)
    requires Shaped(s) && Recorded(s) && Enabled(s, Complete(i, cancelled))
    ensures Recorded(Next(s, Complete(i, cancelled)))
    ensures s.outcomes <= Next(s, Complete(i, cancelled)).outcomes && s.queued == Next(s, Complete(i, cancelled)).queued
  {
    var after := AfterComplete(s, i, cancelled);
    assert s.requests[0] == s.queued[|s.outcomes|];
    assert after.requests == s.queued[|s.outcomes|..][1..] == s.queued[|s.outcomes| + 1..];
  }

  /** The completion callback never takes the front of an empty queue. */
  lemma FrontExists(s: State, i: nat, cancelled: bool)
    requires Shaped(s) && Recorded(s) && Enabled(s, Complete(i, cancelled))
    ensures s.requests != []
  {
  }

  /** Only a push and a delivery touch the queue of a pad, and neither reorders it. */
  lemma StepPads(s: State, a: Action, k: nat)
    requires Shaped(s) && Recorded(s) && Enabled(s, a) && k < |s.pools|
    ensures k < |Next(s, a).pushed| && k < |Next(s, a).pending|
    ensures
      var after := Next(s, a);
      after.pushed[k] + after.pending[k]
      == s.pushed[k] + s.pending[k] + if a.Deliver? && s.callback.pad == k then [s.callback.wrap.buffers[k]] else []
  {
    var after := Next(s, a);
    if a.Push? && k == s.position.pad && s.pending[k] != [] {
      var q := s.pending[k];
      assert q == [q[0]] + q[1..];
    } else if a.Deliver? && k == s.callback.pad {
    } else {
      assert after.pushed[k] == s.pushed[k] && after.pending[k] == s.pending[k];
    }
  }

  lemma StepDone(s: State, a: Action, k: nat)
    requires Shaped(s) && Recorded(s) && Enabled(s, a) && k < |s.pools|
    requires Recorded(Next(s, a))
    ensures
      var after := Next(s, a);
      && 0 <= Done(s, k) <= |s.outcomes|
      && (if a.Deliver? && s.callback.pad == k
          then Done(s, k) == |s.outcomes| - 1 && Done(after, k) == |s.outcomes| == |after.outcomes|
          else Done(after, k) == Done(s, k)
               || (Done(s, k) == |s.outcomes| && Done(after, k) == |s.outcomes| + 1 == |after.outcomes|
                   && !after.outcomes[|s.outcomes|].Delivered?))
  {
    if a.Complete? {
      CompleteMoves(s, a.i, a.cancelled);
      hide Recorded, Shaped;
    } else {
      CallbackMoves(s, a);
      hide Next;
    }
  }

  /** What all steps but a completion do to the callback, and to the history of outcomes. */
  lemma CallbackMoves(s: State, a: Action)
    requires Shaped(s) && Enabled(s, a) && !a.Complete?
    ensures
      var after := Next(s, a);
      && after.outcomes == s.outcomes
      && (if a.Deliver? then s.callback.Delivering? && after.callback == s.callback.(pad := s.callback.pad + 1)
          else if a.EndDelivery? then s.callback.Delivering? && s.callback.pad == |s.pools| && after.callback.Deleting?
          else if s.callback.Delivering? then after.callback == s.callback else !after.callback.Delivering?)
  {
    hide NothingPending;
  }

  lemma StepInOrder(s: State, a: Action, k: nat)
    requires Shaped(s) && Recorded(s) && Enabled(s, a) && k < |s.pools| && PadInOrder(s, k)
    ensures Recorded(Next(s, a)) && k < |Next(s, a).pushed| && k < |Next(s, a).pending|
    ensures PadInOrder(Next(s, a), k)
  {
    hide Next, Enabled, Shaped;
    var after := Next(s, a);
    StepRecorded(s, a);
    StepPads(s, a, k);
    StepDone(s, a, k);
    if a.Deliver? {
      OthersAside(s, a);
    }
    DeliveredPrefix(s.queued, s.outcomes, after.queued, after.outcomes, Done(s, k), k);
  }

  // --- Runs.

  predicate Runs(s: State, actions: seq<Action>)
    requires Shaped(s)
    decreases |actions|
  {
    actions != [] ==>
      && Enabled(s, actions[0])
      && Shaped(Next(s, actions[0]))
      && Runs(Next(s, actions[0]), actions[1..])
  }

  function After(s: State, actions: seq<Action>): State
    requires Shaped(s) && Runs(s, actions)
    decreases |actions|
  {
    if actions == [] then s else After(Next(s, actions[0]), actions[1..])
  }

  /** A session begins: the streaming task runs or is paused, the pools are full and everything else is empty. */
  predicate Start(s: State) {
    && Shaped(s) && !s.task.Stopped? && s.position.Resting? && s.callback.NoCallback? && s.live == {}
    && s.camera == [] && s.requests == [] && s.queued == [] && s.accepted == [] && s.finished == [] && s.outcomes == []
    && forall k | 0 <= k < |s.pools| ::
         s.pending[k] == [] && s.downstream[k] == [] && s.lost[k] == [] && s.pushed[k] == []
  }

  lemma StartInv(s: State)
    requires Start(s)
    ensures Inv(s)
  {
  }

  lemma StepKeeps(s: State, a: Action)
    requires Inv(s) && Enabled(s, a)
    ensures Inv(Next(s, a)) && Pads(Next(s, a)) == Pads(s)
  {
    StepShaped(s, a);
    StepKeepsWoken(s, a);
    StepRecorded(s, a);
    forall k | 0 <= k < |s.pools|
      ensures PadInOrder(Next(s, a), k)
    {
      StepInOrder(s, a, k);
    }
    hide Next, Enabled, PadInOrder, Woken, Recorded;
  }

  lemma {:induction false} RunKeeps(s: State, actions: seq<Action>)
    requires Inv(s) && Runs(s, actions)
    ensures Inv(After(s, actions)) && Pads(After(s, actions)) == Pads(s)
    decreases |actions|
  {
    if actions != [] {
      StepKeeps(s, actions[0]);
      hide Next, Enabled, Woken, Recorded, PadInOrder;
      RunKeeps(Next(s, actions[0]), actions[1..]);
    }
  }

  /** In every interleaving: a paused task with no delivery in progress has nothing to push; the request
    * queue is never empty when a request completes; and each pad has pushed a beginning of what the
    * requests not cancelled or mismatched delivered to it, in the order in which they were queued. */
  lemma NoLostWakeup(s: State, actions: seq<Action>, k: nat)
    requires Start(s) && Runs(s, actions) && k < Pads(s)
    ensures
      var after := After(s, actions);
      && k < |after.pending| && k < |after.pushed|
      && (after.task.Paused? && !after.callback.Delivering? ==> after.pending[k] == [])
      && (after.camera != [] ==> after.requests != [])
      && |after.outcomes| <= |after.queued|
      && after.pushed[k] <= DeliveredTo(after.queued, after.outcomes, |after.outcomes|, k)
  {
    StartInv(s);
    RunKeeps(s, actions);
    var after := After(s, actions);
    assert PadInOrder(after, k);
  }

  /** Every buffer of every pad has exactly as many owners after a run as before. */
  lemma {:induction false} RunConserves(s: State, actions: seq<Action>, k: nat, b: Buffer)
    requires Shaped(s) && Runs(s, actions) && k < Pads(s)
    ensures Shaped(After(s, actions)) && k < Pads(After(s, actions))
    ensures Owners(After(s, actions), k, b) == Owners(s, k, b)
    decreases |actions|
  {
    if actions != [] {
      StepConserves(s, actions[0], k, b);
      hide Next, Enabled, Owners, Shaped;
      RunConserves(Next(s, actions[0]), actions[1..], k, b);
    }
  }

  /** Started from pools without duplicates, a buffer of a pool is always in exactly one place. */
  lemma OneOwner(s: State, actions: seq<Action>, k: nat, b: Buffer)
    requires Start(s) && Runs(s, actions) && k < Pads(s) && b in s.pools[k]
    requires multiset(s.pools[k])[b] == 1
    ensures Shaped(After(s, actions)) && k < Pads(After(s, actions))
    ensures Owners(After(s, actions), k, b) == 1
  {
    RunConserves(s, actions, k, b);
    hide Runs, After;
    assert Owners(s, k, b) == 1;
  }

  // --- Putting runs together.

  lemma {:induction false} RunsAppend(s: State, first: seq<Action>, rest: seq<Action>)
    requires Shaped(s) && Runs(s, first + rest)
    ensures Runs(s, first) && Shaped(After(s, first)) && Runs(After(s, first), rest)
    ensures After(s, first + rest) == After(After(s, first), rest)
    decreases |first|
  {
    hide Next, Enabled, Shaped;
    if first == [] {
      assert first + rest == rest;
    } else {
      assert (first + rest)[1..] == first[1..] + rest;
      RunsAppend(Next(s, first[0]), first[1..], rest);
    }
  }

  lemma {:induction false} RunsConcat(s: State, first: seq<Action>, rest: seq<Action>)
    requires Shaped(s) && Runs(s, first) && Shaped(After(s, first)) && Runs(After(s, first), rest)
    ensures Runs(s, first + rest) && After(s, first + rest) == After(After(s, first), rest)
    decreases |first|
  {
    hide Next, Enabled, Shaped;
    if first == [] {
      assert first + rest == rest;
    } else {
      assert (first + rest)[1..] == first[1..] + rest;
      RunsConcat(Next(s, first[0]), first[1..], rest);
    }
  }

  // --- The callback and the task function when nothing comes between their steps.

  /** Every queue from a pad on gets the buffer of its pad. */
  function Joined(queues: seq<seq<Buffer>>, buffers: seq<Buffer>, pad: nat): seq<seq<Buffer>> {
    seq(|queues|, k requires 0 <= k < |queues| => if pad <= k < |buffers| then queues[k] + [buffers[k]] else queues[k])
  }

  function Delivers(n: nat): seq<Action> {
    if n == 0 then [EndDelivery] else [Deliver] + Delivers(n - 1)
  }

  function Drops(n: nat): seq<Action> {
    if n == 0 then [Drop] else [Drop] + Drops(n - 1)
  }

  function Resumed(task: TaskState): TaskState {
    if task.Paused? then Started else task
  }

  lemma RunsCons(s: State, a: Action, rest: seq<Action>)
    requires Shaped(s) && Enabled(s, a) && Shaped(Next(s, a)) && Runs(Next(s, a), rest)
    ensures Runs(s, [a] + rest) && After(s, [a] + rest) == After(Next(s, a), rest)
  {
    assert ([a] + rest)[1..] == rest;
    hide Next, Enabled, Shaped;
  }

  lemma {:induction false} DeliversAll(s: State)
    requires Shaped(s) && s.callback.Delivering?
    ensures
      var wrap, pad := s.callback.wrap, s.callback.pad;
      && Runs(s, Delivers(|s.pools| - pad))
      && After(s, Delivers(|s.pools| - pad))
         == s.(callback := Deleting(wrap.request.address), pending := Joined(s.pending, wrap.buffers, pad),
               task := Resumed(s.task))
    decreases |s.pools| - s.callback.pad
  {
    var wrap, pad := s.callback.wrap, s.callback.pad;
    if pad < |s.pools| {
      JoinedFirst(s.pending, wrap.buffers, pad);
      StepShaped(s, Deliver);
      hide Joined, Shaped, Runs, After;
      DeliversAll(Next(s, Deliver));
      RunsCons(s, Deliver, Delivers(|s.pools| - (pad + 1)));
    } else {
      StepShaped(s, EndDelivery);
      RunsCons(s, EndDelivery, []);
      assert Joined(s.pending, wrap.buffers, pad) == s.pending;
    }
  }

  lemma JoinedFirst(queues: seq<seq<Buffer>>, buffers: seq<Buffer>, pad: nat)
    requires pad < |buffers| && pad < |queues|
    ensures Joined(queues[pad := queues[pad] + [buffers[pad]]], buffers, pad + 1) == Joined(queues, buffers, pad)
  {
  }

  lemma JoinedLast(queues: seq<seq<Buffer>>, buffers: seq<Buffer>)
    requires 0 < |buffers| <= |queues|
    ensures
      var k := |buffers| - 1;
      Joined(queues[k := queues[k] + [buffers[k]]], buffers[..k], 0) == Joined(queues, buffers, 0)
  {
  }

  lemma {:induction false} DropsAll(s: State)
    requires Shaped(s) && s.callback.Dropping?
    ensures Runs(s, Drops(|s.callback.left|))
    ensures
      After(s, Drops(|s.callback.left|))
      == s.(callback := Deleting(s.callback.address), pools := Joined(s.pools, s.callback.left, 0))
    decreases |s.callback.left|
  {
    var left := s.callback.left;
    var n := |left|;
    StepShaped(s, Drop);
    if n > 0 {
      JoinedLast(s.pools, left);
      hide Joined, Shaped, Runs, After;
      DropsAll(AfterDrop(s));
      RunsCons(s, Drop, Drops(n - 1));
    } else {
      assert Joined(s.pools, left, 0) == s.pools;
      RunsCons(s, Drop, []);
    }
  }

  /** requestCompleted() from its first step to its last. */
  function Completion(s: State, i: nat, cancelled: bool): seq<Action>
    requires Shaped(s) && i < |s.camera|
  {
    [Complete(i, cancelled)] +
    match AfterComplete(s, i, cancelled).callback
    case Delivering(_, _) => Delivers(|s.pools|)
    case Dropping(left, _) => Drops(|left|)
    case _ => []
  }

  /** What those steps come to. */
  function Completed(s: State, i: nat, cancelled: bool): State
    requires Shaped(s) && i < |s.camera| && s.requests != []
  {
    var wrap, r := s.requests[0], s.camera[i];
    var after := AfterComplete(s, i, cancelled).(callback := Deleting(r.address));
    if wrap.request.address == r.address && !cancelled then
      after.(pending := Joined(s.pending, wrap.buffers, 0), task := Resumed(s.task))
    else after.(pools := Joined(s.pools, wrap.buffers, 0))
  }

  lemma CompleteStarts(s: State, i: nat, cancelled: bool)
    requires Shaped(s) && i < |s.camera| && s.requests != []
    ensures
      var wrap, next := s.requests[0], AfterComplete(s, i, cancelled);
      && next.pools == s.pools && next.pending == s.pending && next.task == s.task
      && next.callback
         == if wrap.request.address == s.camera[i].address && !cancelled then Delivering(wrap, 0)
            else Dropping(wrap.buffers, s.camera[i].address)
  {
  }

  lemma CompletionRuns(s: State, i: nat, cancelled: bool)
    requires Shaped(s) && Enabled(s, Complete(i, cancelled)) && s.requests != []
    ensures Runs(s, Completion(s, i, cancelled))
    ensures After(s, Completion(s, i, cancelled)) == Completed(s, i, cancelled)
  {
    hide Next, Enabled, AfterComplete, Shaped, Joined, Runs, After, Delivers, Drops;
    CompleteNext(s, i, cancelled);
    var next := AfterComplete(s, i, cancelled);
    CompleteShaped(s, i, cancelled);
    CompleteStarts(s, i, cancelled);
    if next.callback.Delivering? {
      DeliversAll(next);
      RunsCons(s, Complete(i, cancelled), Delivers(|s.pools|));
    } else {
      DropsAll(next);
      RunsCons(s, Complete(i, cancelled), Drops(|s.requests[0].buffers|));
    }
  }

  lemma CompleteNext(s: State, i: nat, cancelled: bool)
    requires Shaped(s) && Enabled(s, Complete(i, cancelled))
    ensures i < |s.camera| && Next(s, Complete(i, cancelled)) == AfterComplete(s, i, cancelled)
  {
  }

  /** What the surroundings answer in one turn of the task function: whether there is a frame for a buffer of a
    * pad, whether the camera accepts the request, and what the flow combiner says after a push. */
  datatype Answers = Answers(prepared: seq<bool>, accepted: bool, flows: seq<bool>)

  function TaskAction(s: State, env: Answers): Action
    requires Shaped(s) && |s.pools| == |env.prepared| == |env.flows| && !s.position.Resting?
  {
    match s.position
    case Acquiring(held) => Acquire(env.prepared[|held|])
    case Queueing(_) => Queue(env.accepted)
    case Pushing(pad, _) => Push(env.flows[pad])
    case Deciding(_) => Decide
    case Releasing(_) => ReleaseHeld
  }

  function StepsLeft(p: Position, n: nat): int {
    match p
    case Resting => 0
    case Acquiring(held) => 3 * n + 5 - |held|
    case Queueing(_) => 2 * n + 4
    case Pushing(pad, held) => n - pad + |held| + 3
    case Deciding(held) => |held| + 2
    case Releasing(held) => |held| + 1
  }

  lemma TaskStep(s: State, env: Answers)
    requires Shaped(s) && |s.pools| == |env.prepared| == |env.flows|
    requires !s.position.Resting? && Unlocked(s)
    ensures
      var a := TaskAction(s, env);
      && Enabled(s, a) && Shaped(Next(s, a)) && Pads(Next(s, a)) == Pads(s) && Next(s, a).callback == s.callback
      && 0 <= StepsLeft(Next(s, a).position, |s.pools|) < StepsLeft(s.position, |s.pools|)
  {
    StepShaped(s, TaskAction(s, env));
    hide NothingPending;
  }

  /** The task function from where it is to its end. */
  function Finish(s: State, env: Answers): State
    requires Shaped(s) && |s.pools| == |env.prepared| == |env.flows| && Unlocked(s)
    decreases StepsLeft(s.position, |s.pools|)
  {
    if s.position.Resting? then s
    else
      TaskStep(s, env);
      Finish(Next(s, TaskAction(s, env)), env)
  }

  function FinishSteps(s: State, env: Answers): seq<Action>
    requires Shaped(s) && |s.pools| == |env.prepared| == |env.flows| && Unlocked(s)
    decreases StepsLeft(s.position, |s.pools|)
  {
    if s.position.Resting? then []
    else
      TaskStep(s, env);
      [TaskAction(s, env)] + FinishSteps(Next(s, TaskAction(s, env)), env)
  }

  lemma {:induction false} FinishRuns(s: State, env: Answers)
    requires Shaped(s) && |s.pools| == |env.prepared| == |env.flows| && Unlocked(s)
    ensures Runs(s, FinishSteps(s, env)) && After(s, FinishSteps(s, env)) == Finish(s, env)
    ensures Finish(s, env).position.Resting?
    decreases StepsLeft(s.position, |s.pools|)
  {
    if !s.position.Resting? {
      TaskStep(s, env);
      hide Next, Enabled, TaskAction;
      FinishRuns(Next(s, TaskAction(s, env)), env);
      assert FinishSteps(s, env)[1..] == FinishSteps(Next(s, TaskAction(s, env)), env);
    }
  }

  /** At the end of the function the wrap that was not queued gives all its buffers back. */
  lemma {:induction false} FinishReleases(s: State, env: Answers)
    requires Shaped(s) && |s.pools| == |env.prepared| == |env.flows| && Unlocked(s)
    requires s.position.Releasing?
    ensures Finish(s, env) == s.(position := Resting, pools := Joined(s.pools, s.position.held, 0))
    decreases |s.position.held|
  {
    var held := s.position.held;
    TaskStep(s, env);
    if held != [] {
      JoinedLast(s.pools, held);
      hide Joined, Shaped;
      FinishReleases(AfterRelease(s), env);
    } else {
      assert Joined(s.pools, held, 0) == s.pools;
    }
  }

  lemma CompletedShaped(s: State, i: nat, cancelled: bool)
    requires Shaped(s) && i < |s.camera| && s.requests != []
    ensures Shaped(Completed(s, i, cancelled)) && |Completed(s, i, cancelled).pools| == |s.pools|
  {
  }
}
