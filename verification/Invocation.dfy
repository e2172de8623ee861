/** Calls across threads: bound methods activated directly, queued, or blocking on a semaphore, under
  * every interleaving of the threads. Calls are numbered in the order in which they are made. */
module Invocation {
  import opened Bytes

  type Thread = nat
  type Object = nat
  type Value = int

  datatype ConnectionType = Auto | Direct | Queued | Blocking

  /** The first half of activatePack(): what the type means for a caller in a thread. */
  function Effective(connection: ConnectionType, caller: Thread, home: Thread): (r: ConnectionType)
    ensures r.Direct? <==> connection.Direct? || (caller == home && !connection.Queued?)
    ensures r.Queued? <==> connection.Queued? || (caller != home && connection.Auto?)
    ensures r.Blocking? <==> caller != home && connection.Blocking?
  {
    match connection
    case Auto => if caller == home then Direct else Queued
    case Blocking => if caller == home then Direct else Blocking
    case _ => connection
  }

  /** How far the invocation of a call has come: its message waits in a queue (Posted), its method runs
    * (Invoking) and returns (Invoked), the semaphore is released if there is one (Signalled), and the
    * message is destroyed (Gone). A message whose receiver is deleted first is Dropped. */
  datatype Phase = Posted | Invoking | Invoked | Signalled | Gone | Dropped

  /** answer is what activatePack() has returned, result the return value in the pack, semaphore the
    * count of the semaphore of a blocking call, and deletions how often the bound method was deleted. */
  datatype Call = Call(
    caller: Thread, receiver: Object, mode: ConnectionType, deleteMethod: bool,
    phase: Phase, answer: Option<bool>, result: Option<Value>, semaphore: nat, deletions: nat)

  datatype Frame =
    | Immediate(call: nat)  // invokePack() in activatePack()
    | Deliver(call: nat)    // message() in dispatchMessages()
    | Wait(call: nat)       // semaphore.acquire() in activatePack()

  /** home is the thread of each object. A thread has a queue of messages, a stack of frames with the
    * innermost last, and the messages it has taken so far, in order. */
  datatype State = State(
    home: seq<Thread>, live: set<Object>, calls: seq<Call>,
    queues: seq<seq<nat>>, stacks: seq<seq<Frame>>, taken: seq<seq<nat>>)

  datatype Action =
    | Activate(t: Thread, receiver: Object, connection: ConnectionType, deleteMethod: bool)
    | Take(t: Thread)
    | EndInvoke(t: Thread, value: Value)
    | Release(t: Thread)
    | EndMessage(t: Thread)
    | Wake(t: Thread)
    | Destroy(receiver: Object)

  predicate Shaped(s: State) {
    && |s.stacks| == |s.queues| == |s.taken|
    && (forall o | 0 <= o < |s.home| :: s.home[o] < |s.queues|)
    && (forall c | 0 <= c < |s.calls| :: s.calls[c].receiver < |s.home|)
    && (forall t, i | 0 <= t < |s.stacks| && 0 <= i < |s.stacks[t]| :: s.stacks[t][i].call < |s.calls|)
    && (forall t, i | 0 <= t < |s.queues| && 0 <= i < |s.queues[t]| :: s.queues[t][i] < |s.calls|)
    && (forall o <- s.live :: o < |s.home|)
  }

  /** The innermost frame of a thread. */
  function Top(s: State, t: Thread): Option<Frame> {
    if t < |s.stacks| && s.stacks[t] != [] then Some(s.stacks[t][|s.stacks[t]| - 1]) else None
  }

  function Popped(s: State, t: Thread): seq<seq<Frame>>
    requires Top(s, t).Some?
  {
    s.stacks[t := s.stacks[t][..|s.stacks[t]| - 1]]
  }

  predicate Blocked(s: State, t: Thread) {
    Top(s, t).Some? && Top(s, t).value.Wait?
  }

  predicate Delivering(s: State, t: Thread, phase: Phase)
    requires Shaped(s)
  {
    Top(s, t).Some? && Top(s, t).value.Deliver? && s.calls[Top(s, t).value.call].phase == phase
  }

  /** What may happen next. A thread blocked in a call does nothing until it wakes; only live objects are called. */
  predicate Enabled(s: State, a: Action)
    requires Shaped(s)
  {
    match a
    case Activate(t, o, _, _) => t < |s.stacks| && o in s.live && !Blocked(s, t)
    case Take(t) => t < |s.queues| && s.queues[t] != [] && !Blocked(s, t)
    case EndInvoke(t, _) => Delivering(s, t, Invoking) || (Top(s, t).Some? && Top(s, t).value.Immediate?)
    case Release(t) => Delivering(s, t, Invoked)
    case EndMessage(t) => Delivering(s, t, Signalled)
    case Wake(t) => Blocked(s, t) && s.calls[Top(s, t).value.call].semaphore >= 1
    case Destroy(o) => o in s.live
  }

  function Next(s: State, a: Action): State
    requires Shaped(s) && Enabled(s, a)
  {
    match a
    case Activate(t, o, connection, del) => AfterActivate(s, t, o, Effective(connection, t, s.home[o]), del)
    case Take(t) =>
      var c := s.queues[t][0];
      s.(calls := s.calls[c := s.calls[c].(phase := Invoking)],
         queues := s.queues[t := s.queues[t][1..]],
         stacks := s.stacks[t := s.stacks[t] + [Deliver(c)]],
         taken := s.taken[t := s.taken[t] + [c]])
    case EndInvoke(t, v) =>
      var f := Top(s, t).value;
      var call := s.calls[f.call].(result := Some(v));
      if f.Immediate? then
        s.(calls := s.calls[f.call := Finished(call.(answer := Some(true)))], stacks := Popped(s, t))
      else
        s.(calls := s.calls[f.call := call.(phase := Invoked)])
    case Release(t) =>
      var c := Top(s, t).value.call;
      s.(calls := s.calls[c := Signal(s.calls[c])])
    case EndMessage(t) =>
      var c := Top(s, t).value.call;
      s.(calls := s.calls[c := Finished(s.calls[c])], stacks := Popped(s, t))
    case Wake(t) =>
      var c := Top(s, t).value.call;
      var call := s.calls[c];
      s.(calls := s.calls[c := call.(answer := Some(true), semaphore := call.semaphore - 1)], stacks := Popped(s, t))
    case Destroy(o) => AfterDestroy(s, o)
  }

  /** if (semaphore) semaphore->release(); */
  function Signal(call: Call): Call {
    call.(phase := Signalled, semaphore := call.semaphore + if call.mode.Blocking? then 1 else 0)
  }

  /** The invocation is over and the bound method is deleted if that was asked for. */
  function Finished(call: Call): Call {
    call.(phase := Gone, deletions := call.deletions + if call.deleteMethod then 1 else 0)
  }

  /** The switch of activatePack(), for a resolved connection type. */
  function AfterActivate(s: State, t: Thread, o: Object, mode: ConnectionType, del: bool): State
    requires Shaped(s) && t < |s.stacks| && o < |s.home|
  {
    var c, h := |s.calls|, s.home[o];
    var posted := s.queues[h := s.queues[h] + [c]];
    match mode
    case Queued =>
      s.(calls := s.calls + [Call(t, o, Queued, del, Posted, Some(false), None, 0, 0)], queues := posted)
    case Blocking =>
      s.(calls := s.calls + [Call(t, o, Blocking, del, Posted, None, None, 0, 0)], queues := posted,
         stacks := s.stacks[t := s.stacks[t] + [Wait(c)]])
    case _ =>
      s.(calls := s.calls + [Call(t, o, Direct, del, Invoking, None, None, 0, 0)],
         stacks := s.stacks[t := s.stacks[t] + [Immediate(c)]])
  }

  /** A queue without the messages to an object. */
  function NotTo(calls: seq<Call>, queue: seq<nat>, o: Object): seq<nat>
    requires forall i | 0 <= i < |queue| :: queue[i] < |calls|
    decreases |queue|
  {
    if queue == [] then []
    else
      var n := |queue| - 1;
      NotTo(calls, queue[..n], o) + if calls[queue[n]].receiver == o then [] else [queue[n]]
  }

  /** The destructor of an object: its messages are destroyed, each as often as it is queued. */
  function AfterDestroy(s: State, o: Object): State
    requires Shaped(s) && o < |s.home|
  {
    var queue := s.queues[s.home[o]];
    s.(live := s.live - {o},
       calls := seq(|s.calls|, c requires 0 <= c < |s.calls| => Dismissed(s.calls[c], o, multiset(queue)[c])),
       queues := s.queues[s.home[o] := NotTo(s.calls, queue, o)])
  }

  function Dismissed(call: Call, o: Object, times: nat): Call {
    if call.receiver == o && times > 0 then
      call.(phase := Dropped, deletions := call.deletions + if call.deleteMethod then times else 0)
    else call
  }

  // --- What every step keeps.

  /** The record of a call is consistent: in particular its semaphore holds what was released and not yet
    * acquired, and its bound method has been deleted once exactly when it is no longer needed. */
  predicate CallOk(call: Call) {
    && !call.mode.Auto?
    && (call.result.Some? <==> call.phase.Invoked? || call.phase.Signalled? || call.phase.Gone?)
    && (call.mode.Direct? ==>
          && (call.phase.Invoking? || call.phase.Gone?)
          && call.answer == (if call.phase.Gone? then Some(true) else None))
    && (call.mode.Queued? ==> call.answer == Some(false))
    && (call.mode.Blocking? ==>
          && call.answer != Some(false)
          && (call.answer.Some? ==> call.phase.Signalled? || call.phase.Gone?))
    && call.semaphore
       == (if call.mode.Blocking? && (call.phase.Signalled? || call.phase.Gone?) && call.answer.None? then 1 else 0)
    && call.deletions == (if call.deleteMethod && (call.phase.Gone? || call.phase.Dropped?) then 1 else 0)
  }

  predicate InProgress(call: Call) {
    call.phase.Invoking? || call.phase.Invoked? || call.phase.Signalled?
  }

  predicate WasTaken(call: Call) {
    !call.mode.Direct? && (InProgress(call) || call.phase.Gone?)
  }

  predicate IsPosted(call: Call) {
    call.phase.Posted? && !call.mode.Direct?
  }

  /** A frame of thread t tells the truth about its call: direct calls run where they are made, all
    * others in the thread of their receiver. */
  predicate FrameOk(home: seq<Thread>, calls: seq<Call>, t: Thread, f: Frame) {
    && f.call < |calls|
    && calls[f.call].receiver < |home|
    && (match f
        case Immediate(c) => calls[c].mode.Direct? && calls[c].caller == t && calls[c].phase.Invoking?
        case Deliver(c) => !calls[c].mode.Direct? && home[calls[c].receiver] == t && InProgress(calls[c])
        case Wait(c) => calls[c].mode.Blocking? && calls[c].caller == t && calls[c].answer.None?)
  }

  predicate StackOk(home: seq<Thread>, calls: seq<Call>, t: Thread, stack: seq<Frame>) {
    && (forall f <- stack :: FrameOk(home, calls, t, f))
    && (forall i, j | 0 <= i < j < |stack| :: stack[i] != stack[j])
  }

  predicate Increasing(ids: seq<nat>) {
    forall i, j | 0 <= i < j < |ids| :: ids[i] < ids[j]
  }

  predicate Belongs(home: seq<Thread>, calls: seq<Call>, t: Thread, c: nat) {
    c < |calls| && calls[c].receiver < |home| && home[calls[c].receiver] == t
  }

  /** Messages are taken in the order in which they were posted. */
  predicate QueueOk(home: seq<Thread>, calls: seq<Call>, t: Thread, queue: seq<nat>, taken: seq<nat>) {
    && (forall c <- queue :: Belongs(home, calls, t, c) && IsPosted(calls[c]))
    && (forall c <- taken :: Belongs(home, calls, t, c) && WasTaken(calls[c]))
    && Increasing(taken + queue)
  }

  /** No message is lost and no frame is missing. */
  predicate Accounted(s: State, c: nat)
    requires Shaped(s) && c < |s.calls|
  {
    var call := s.calls[c];
    var h := s.home[call.receiver];
    && call.caller < |s.stacks|
    && (IsPosted(call) ==> c in s.queues[h])
    && (WasTaken(call) ==> c in s.taken[h])
    && (InProgress(call) && call.mode.Direct? ==> Immediate(c) in s.stacks[call.caller])
    && (InProgress(call) && !call.mode.Direct? ==> Deliver(c) in s.stacks[h])
    && (call.mode.Blocking? && call.answer.None? ==> Wait(c) in s.stacks[call.caller])
  }

  predicate Inv(s: State) {
    && Shaped(s)
    && (forall c | 0 <= c < |s.calls| :: CallOk(s.calls[c]))
    && (forall t | 0 <= t < |s.stacks| :: StackOk(s.home, s.calls, t, s.stacks[t]))
    && (forall t | 0 <= t < |s.queues| :: QueueOk(s.home, s.calls, t, s.queues[t], s.taken[t]))
    && (forall c | 0 <= c < |s.calls| :: Accounted(s, c))
  }

  // --- Steps that change the record of one call and at most the innermost frame of one thread.

  /** The two records describe the same call. */
  predicate SameCall(a: Call, b: Call) {
    a.caller == b.caller && a.receiver == b.receiver && a.mode == b.mode && a.deleteMethod == b.deleteMethod
  }

  predicate SameOthers(a: seq<Call>, b: seq<Call>, c: nat) {
    |a| == |b| && c < |a| && forall d | 0 <= d < |a| && d != c :: a[d] == b[d]
  }

  lemma StackPop(home: seq<Thread>, calls: seq<Call>, t: Thread, stack: seq<Frame>)
    requires StackOk(home, calls, t, stack) && stack != []
    ensures StackOk(home, calls, t, stack[..|stack| - 1])
    ensures stack[|stack| - 1] !in stack[..|stack| - 1]
    ensures forall f <- stack :: f in stack[..|stack| - 1] || f == stack[|stack| - 1]
    ensures forall f <- stack[..|stack| - 1] :: f in stack
  {
  }

  lemma StackPush(home: seq<Thread>, calls: seq<Call>, t: Thread, stack: seq<Frame>, f: Frame)
    requires StackOk(home, calls, t, stack)
    requires FrameOk(home, calls, t, f) && f !in stack
    ensures StackOk(home, calls, t, stack + [f])
  {
    var more := stack + [f];
    assert forall i | 0 <= i < |stack| :: more[i] in stack;
  }

  /** after is s but for one call, whose frames still tell the truth, and perhaps its innermost frame in t. */
  ghost predicate Touches(s: State, after: State, c: nat, t: Thread)
    requires Shaped(s)
  {
    && after.home == s.home && after.live == s.live && after.queues == s.queues && after.taken == s.taken
    && SameOthers(s.calls, after.calls, c) && SameCall(s.calls[c], after.calls[c])
    && CallOk(after.calls[c])
    && IsPosted(s.calls[c]) == IsPosted(after.calls[c]) && WasTaken(s.calls[c]) == WasTaken(after.calls[c])
    && (after.stacks == s.stacks
        || (Top(s, t).Some? && Top(s, t).value.call == c && after.stacks == Popped(s, t)))
    && (forall u, f | 0 <= u < |after.stacks| && f in after.stacks[u] && f.call == c ::
          FrameOk(after.home, after.calls, u, f))
  }

  lemma TouchesStack(s: State, after: State, c: nat, t: Thread, u: Thread)
    requires Inv(s) && Touches(s, after, c, t) && u < |s.stacks|
    ensures StackOk(after.home, after.calls, u, after.stacks[u])
    ensures forall f <- s.stacks[u] | f.call != c :: f in after.stacks[u]
    ensures forall i | 0 <= i < |after.stacks[u]| :: after.stacks[u][i].call < |after.calls|
  {
    assert StackOk(s.home, s.calls, u, s.stacks[u]);
    if after.stacks[u] != s.stacks[u] {
      StackPop(s.home, s.calls, u, s.stacks[u]);
    }
    forall f <- after.stacks[u]
      ensures FrameOk(after.home, after.calls, u, f)
    {
      assert FrameOk(s.home, s.calls, u, f);
    }
  }

  lemma TouchesKeeps(s: State, after: State, c: nat, t: Thread)
    requires Inv(s) && Touches(s, after, c, t)
    requires Shaped(after) ==> Accounted(after, c)
    ensures Inv(after)
  {
    forall u | 0 <= u < |s.stacks|
      ensures StackOk(after.home, after.calls, u, after.stacks[u])
      ensures forall f <- s.stacks[u] | f.call != c :: f in after.stacks[u]
      ensures forall i | 0 <= i < |after.stacks[u]| :: after.stacks[u][i].call < |after.calls|
    {
      TouchesStack(s, after, c, t, u);
    }
    assert Shaped(after);
    hide CallOk, StackOk;
    TouchesQueues(s, after, c, t);
    hide QueueOk;
    forall d | 0 <= d < |s.calls|
      ensures Accounted(after, d)
    {
      assert Accounted(s, d);
    }
  }

  lemma TouchesQueues(s: State, after: State, c: nat, t: Thread)
    requires Inv(s) && Touches(s, after, c, t)
    ensures forall u | 0 <= u < |s.queues| :: QueueOk(after.home, after.calls, u, after.queues[u], after.taken[u])
  {
    hide CallOk, StackOk, Accounted;
    forall u | 0 <= u < |s.queues|
      ensures QueueOk(after.home, after.calls, u, after.queues[u], after.taken[u])
    {
      assert QueueOk(s.home, s.calls, u, s.queues[u], s.taken[u]);
      hide Increasing;
    }
  }

  /** A frame sits where its call says, and each call has at most one of a kind. */
  lemma TopIsAlone(s: State, t: Thread, u: Thread, f: Frame)
    requires Inv(s) && Top(s, t).Some?
    requires u < |s.stacks| && f in Popped(s, t)[u]
    ensures f != Top(s, t).value
    ensures FrameOk(s.home, s.calls, u, f)
    ensures FrameOk(s.home, s.calls, t, Top(s, t).value)
  {
    hide Accounted, QueueOk, CallOk;
    assert StackOk(s.home, s.calls, t, s.stacks[t]);
    assert StackOk(s.home, s.calls, u, s.stacks[u]);
    assert Top(s, t).value in s.stacks[t];
    StackPop(s.home, s.calls, t, s.stacks[t]);
  }

  lemma TopOk(s: State, t: Thread)
    requires Inv(s) && Top(s, t).Some?
    ensures Top(s, t).value in s.stacks[t]
    ensures FrameOk(s.home, s.calls, t, Top(s, t).value)
    ensures CallOk(s.calls[Top(s, t).value.call])
    ensures Accounted(s, Top(s, t).value.call)
  {
    assert StackOk(s.home, s.calls, t, s.stacks[t]);
  }

  lemma EndInvokeKeeps(s: State, t: Thread, v: Value)
    requires Inv(s) && Enabled(s, EndInvoke(t, v))
    ensures Inv(Next(s, EndInvoke(t, v)))
  {
    var after := Next(s, EndInvoke(t, v));
    var c := Top(s, t).value.call;
    TopOk(s, t);
    forall u, f | 0 <= u < |after.stacks| && f in after.stacks[u] && f.call == c
      ensures FrameOk(after.home, after.calls, u, f)
    {
      assert StackOk(s.home, s.calls, u, s.stacks[u]);
      if Top(s, t).value.Immediate? {
        TopIsAlone(s, t, u, f);
      }
    }
    assert Touches(s, after, c, t);
    TouchesKeeps(s, after, c, t);
  }

  lemma ReleaseKeeps(s: State, t: Thread)
    requires Inv(s) && Enabled(s, Action.Release(t))
    ensures Inv(Next(s, Action.Release(t)))
  {
    var after := Next(s, Action.Release(t));
    var c := Top(s, t).value.call;
    TopOk(s, t);
    forall u, f | 0 <= u < |after.stacks| && f in after.stacks[u] && f.call == c
      ensures FrameOk(after.home, after.calls, u, f)
    {
      assert StackOk(s.home, s.calls, u, s.stacks[u]);
    }
    assert Touches(s, after, c, t);
    TouchesKeeps(s, after, c, t);
  }

  lemma EndMessageKeeps(s: State, t: Thread)
    requires Inv(s) && Enabled(s, EndMessage(t))
    ensures Inv(Next(s, EndMessage(t)))
  {
    var after := Next(s, EndMessage(t));
    var c := Top(s, t).value.call;
    TopOk(s, t);
    forall u, f | 0 <= u < |after.stacks| && f in after.stacks[u] && f.call == c
      ensures FrameOk(after.home, after.calls, u, f) && f != Top(s, t).value
    {
      TopIsAlone(s, t, u, f);
    }
    assert Touches(s, after, c, t);
    WaitStays(s, t, c);
    TouchesKeeps(s, after, c, t);
  }

  /** Popping a frame of another kind leaves the frames of the waiting or delivering thread. */
  lemma WaitStays(s: State, t: Thread, c: nat)
    requires Inv(s) && Top(s, t).Some?
    ensures forall u, f | 0 <= u < |s.stacks| && f in s.stacks[u] && f != Top(s, t).value :: f in Popped(s, t)[u]
  {
    assert StackOk(s.home, s.calls, t, s.stacks[t]);
    StackPop(s.home, s.calls, t, s.stacks[t]);
  }

  lemma WakeKeeps(s: State, t: Thread)
    requires Inv(s) && Enabled(s, Wake(t))
    ensures Inv(Next(s, Wake(t)))
  {
    var after := Next(s, Wake(t));
    var c := Top(s, t).value.call;
    TopOk(s, t);
    forall u, f | 0 <= u < |after.stacks| && f in after.stacks[u] && f.call == c
      ensures FrameOk(after.home, after.calls, u, f) && f != Top(s, t).value
    {
      TopIsAlone(s, t, u, f);
    }
    assert Touches(s, after, c, t);
    WaitStays(s, t, c);
    TouchesKeeps(s, after, c, t);
  }

  // --- Taking a message, making a call, deleting a receiver.

  lemma TakeQueues(s: State, t: Thread)
    requires Inv(s) && Enabled(s, Take(t))
    ensures
      var after := Next(s, Take(t));
      && (forall u | 0 <= u < |s.queues| :: QueueOk(after.home, after.calls, u, after.queues[u], after.taken[u]))
      && (forall d <- s.queues[t] :: d in after.queues[t] || d == s.queues[t][0])
      && s.queues[t][0] !in after.queues[t]
      && Belongs(s.home, s.calls, t, s.queues[t][0]) && IsPosted(s.calls[s.queues[t][0]])
  {
    var after, c := Next(s, Take(t)), s.queues[t][0];
    assert QueueOk(s.home, s.calls, t, s.queues[t], s.taken[t]);
    assert s.taken[t] + s.queues[t] == after.taken[t] + after.queues[t];
    var ids := s.taken[t] + s.queues[t];
    assert ids[|s.taken[t]|] == c && forall i | 0 <= i < |after.queues[t]| :: ids[|s.taken[t]| + 1 + i] == after.queues[t][i];
    hide CallOk, StackOk, Accounted;
    assert c !in after.queues[t];
    hide Increasing;
    forall u | 0 <= u < |s.queues|
      ensures QueueOk(after.home, after.calls, u, after.queues[u], after.taken[u])
    {
      assert QueueOk(s.home, s.calls, u, s.queues[u], s.taken[u]);
    }
  }

  lemma TakeKeeps(s: State, t: Thread)
    requires Inv(s) && Enabled(s, Take(t))
    ensures Inv(Next(s, Take(t)))
  {
    var after, c := Next(s, Take(t)), s.queues[t][0];
    TakeQueues(s, t);
    hide QueueOk;
    assert CallOk(s.calls[c]) && CallOk(after.calls[c]);
    hide CallOk;
    forall u | 0 <= u < |s.stacks|
      ensures StackOk(after.home, after.calls, u, after.stacks[u])
      ensures forall f <- s.stacks[u] :: f in after.stacks[u]
    {
      assert StackOk(s.home, s.calls, u, s.stacks[u]);
      assert StackOk(after.home, after.calls, u, s.stacks[u]);
      if u == t {
        StackPush(after.home, after.calls, t, s.stacks[t], Deliver(c));
      }
    }
    assert Shaped(after);
    assert Deliver(c) in after.stacks[t];
    hide StackOk;
    forall d | 0 <= d < |s.calls|
      ensures Accounted(after, d)
    {
      assert Accounted(s, d);
    }
  }

  lemma PostQueues(s: State, after: State, call: Call)
    requires Inv(s) && call.receiver < |s.home|
    requires IsPosted(call)
    requires after.home == s.home && after.calls == s.calls + [call] && after.taken == s.taken
    requires
      var h := s.home[call.receiver];
      after.queues == s.queues[h := s.queues[h] + [|s.calls|]]
    ensures forall u | 0 <= u < |s.queues| :: QueueOk(after.home, after.calls, u, after.queues[u], after.taken[u])
    ensures forall u, d | 0 <= u < |s.queues| && d in s.queues[u] :: d in after.queues[u]
  {
    hide CallOk, StackOk, Accounted;
    forall u | 0 <= u < |s.queues|
      ensures QueueOk(after.home, after.calls, u, after.queues[u], after.taken[u])
    {
      assert QueueOk(s.home, s.calls, u, s.queues[u], s.taken[u]);
      var ids := s.taken[u] + s.queues[u];
      assert forall i | 0 <= i < |ids| :: ids[i] in s.taken[u] || ids[i] in s.queues[u];
      assert Increasing(ids + [|s.calls|]);
      if u == s.home[call.receiver] {
        assert ids + [|s.calls|] == after.taken[u] + after.queues[u];
      }
      hide Increasing;
    }
  }

  lemma CallQueues(s: State, call: Call)
    requires Inv(s)
    ensures forall u | 0 <= u < |s.queues| :: QueueOk(s.home, s.calls + [call], u, s.queues[u], s.taken[u])
  {
    hide CallOk, StackOk, Accounted;
    forall u | 0 <= u < |s.queues|
      ensures QueueOk(s.home, s.calls + [call], u, s.queues[u], s.taken[u])
    {
      assert QueueOk(s.home, s.calls, u, s.queues[u], s.taken[u]);
      hide Increasing;
    }
  }

  lemma ActivateKeeps(s: State, t: Thread, o: Object, mode: ConnectionType, del: bool)
    requires Inv(s) && t < |s.stacks| && o < |s.home| && !mode.Auto?
    ensures Inv(AfterActivate(s, t, o, mode, del))
  {
    var after, c := AfterActivate(s, t, o, mode, del), |s.calls|;
    var call := after.calls[c];
    if mode.Direct? {
      CallQueues(s, call);
    } else {
      PostQueues(s, after, call);
    }
    hide QueueOk;
    ActivateStacks(s, t, o, mode, del);
    hide StackOk;
    ActivateCalls(s, t, o, mode, del);
    hide CallOk;
    forall d | 0 <= d < |after.calls|
      ensures Accounted(after, d)
    {
      assert d < c ==> Accounted(s, d);
    }
  }

  lemma ActivateCalls(s: State, t: Thread, o: Object, mode: ConnectionType, del: bool)
    requires Inv(s) && t < |s.stacks| && o < |s.home| && !mode.Auto?
    ensures
      var after := AfterActivate(s, t, o, mode, del);
      Shaped(after) && forall d | 0 <= d < |after.calls| :: CallOk(after.calls[d])
  {
    hide QueueOk, StackOk, Accounted;
    assert forall d | 0 <= d < |s.calls| :: CallOk(s.calls[d]);
  }

  lemma ActivateStacks(s: State, t: Thread, o: Object, mode: ConnectionType, del: bool)
    requires Inv(s) && t < |s.stacks| && o < |s.home| && !mode.Auto?
    ensures
      var after := AfterActivate(s, t, o, mode, del);
      forall u | 0 <= u < |s.stacks| ::
        StackOk(after.home, after.calls, u, after.stacks[u]) && forall f <- s.stacks[u] :: f in after.stacks[u]
  {
    var after, c := AfterActivate(s, t, o, mode, del), |s.calls|;
    hide QueueOk, CallOk, Accounted;
    forall u | 0 <= u < |s.stacks|
      ensures StackOk(after.home, after.calls, u, after.stacks[u])
      ensures forall f <- s.stacks[u] :: f in after.stacks[u]
    {
      assert StackOk(s.home, s.calls, u, s.stacks[u]);
      assert StackOk(after.home, after.calls, u, s.stacks[u]);
      if u == t && !mode.Queued? {
        StackPush(after.home, after.calls, t, s.stacks[t], if mode.Direct? then Immediate(c) else Wait(c));
      }
    }
  }

  lemma IncreasingSnoc(ids: seq<nat>, d: nat)
    ensures Increasing(ids + [d]) <==> Increasing(ids) && forall x <- ids :: x < d
  {
    var more := ids + [d];
    if Increasing(more) {
      assert forall i | 0 <= i < |ids| :: ids[i] == more[i] < more[|ids|];
      assert forall i, j | 0 <= i < j < |ids| :: ids[i] == more[i] < more[j] == ids[j];
    }
    if Increasing(ids) && forall x <- ids :: x < d {
      forall i, j | 0 <= i < j < |more|
        ensures more[i] < more[j]
      {
        assert ids[i] in ids;
      }
    }
  }

  lemma {:induction false} NotToMeans(calls: seq<Call>, queue: seq<nat>, o: Object, before: seq<nat>)
    requires forall i | 0 <= i < |queue| :: queue[i] < |calls|
    requires Increasing(before + queue)
    ensures forall d :: d in NotTo(calls, queue, o) <==> d in queue && calls[d].receiver != o
    ensures Increasing(before + NotTo(calls, queue, o))
    decreases |queue|
  {
    if queue == [] {
      assert NotTo(calls, queue, o) == queue;
    } else {
      var n := |queue| - 1;
      assert queue == queue[..n] + [queue[n]];
      assert before + queue == (before + queue[..n]) + [queue[n]];
      IncreasingSnoc(before + queue[..n], queue[n]);
      hide Increasing;
      NotToMeans(calls, queue[..n], o, before);
      var rest := NotTo(calls, queue[..n], o);
      assert NotTo(calls, queue, o) == if calls[queue[n]].receiver == o then rest else rest + [queue[n]];
      hide NotTo;
      forall x <- before + rest
        ensures x in before + queue[..n]
      {
        assert x in before || x in queue[..n];
      }
      assert before + (rest + [queue[n]]) == (before + rest) + [queue[n]];
      IncreasingSnoc(before + rest, queue[n]);
    }
  }

  lemma {:induction false} OnceInIncreasing(ids: seq<nat>, before: seq<nat>, d: nat)
    requires Increasing(before + ids)
    ensures multiset(ids)[d] == if d in ids then 1 else 0
    decreases |ids|
  {
    if ids != [] {
      var n := |ids| - 1;
      assert ids == ids[..n] + [ids[n]];
      assert before + ids == (before + ids[..n]) + [ids[n]];
      IncreasingSnoc(before + ids[..n], ids[n]);
      assert forall x <- ids[..n] :: x in before + ids[..n];
      OnceInIncreasing(ids[..n], before, d);
      assert multiset(ids) == multiset(ids[..n]) + multiset{ids[n]};
    }
  }

  /** The calls whose messages to an object were still queued are dropped, and no others change. */
  predicate Dismisses(calls: seq<Call>, after: seq<Call>, o: Object) {
    && |calls| == |after|
    && forall d | 0 <= d < |calls| ::
         after[d]
         == (if calls[d].receiver == o && IsPosted(calls[d])
             then calls[d].(phase := Dropped, deletions := if calls[d].deleteMethod then 1 else 0)
             else calls[d])
  }

  lemma DestroyDismisses(s: State, o: Object)
    requires Inv(s) && o < |s.home|
    ensures Dismisses(s.calls, AfterDestroy(s, o).calls, o)
  {
    var after, h := AfterDestroy(s, o), s.home[o];
    assert QueueOk(s.home, s.calls, h, s.queues[h], s.taken[h]);
    hide Increasing, StackOk;
    forall d | 0 <= d < |s.calls|
      ensures
        after.calls[d]
        == (if s.calls[d].receiver == o && IsPosted(s.calls[d])
            then s.calls[d].(phase := Dropped, deletions := if s.calls[d].deleteMethod then 1 else 0)
            else s.calls[d])
    {
      assert Accounted(s, d) && CallOk(s.calls[d]);
      OnceInIncreasing(s.queues[h], s.taken[h], d);
    }
  }

  lemma DismissedQueue(
      home: seq<Thread>, calls: seq<Call>, after: seq<Call>, o: Object, u: Thread, queue: seq<nat>, taken: seq<nat>)
    requires QueueOk(home, calls, u, queue, taken) && o < |home|
    requires forall i | 0 <= i < |queue| :: queue[i] < |calls|
    requires Dismisses(calls, after, o)
    ensures QueueOk(home, after, u, NotTo(calls, queue, o), taken)
    ensures forall d <- queue :: d in NotTo(calls, queue, o) || (d < |calls| && calls[d].receiver == o)
    ensures home[o] != u ==> QueueOk(home, after, u, queue, taken)
  {
    NotToMeans(calls, queue, o, taken);
    hide Increasing, NotTo;
  }

  lemma DestroyKeeps(s: State, o: Object)
    requires Inv(s) && o < |s.home|
    ensures Inv(AfterDestroy(s, o))
  {
    var after, h := AfterDestroy(s, o), s.home[o];
    DestroyDismisses(s, o);
    assert after.queues == s.queues[h := NotTo(s.calls, s.queues[h], o)];
    assert after.stacks == s.stacks && after.home == s.home && after.taken == s.taken && after.live <= s.live;
    hide AfterDestroy, NotTo;
    DismissedKeeps(s, after, o);
  }

  lemma DismissedKeeps(s: State, after: State, o: Object)
    requires Inv(s) && o < |s.home|
    requires Dismisses(s.calls, after.calls, o)
    requires after.stacks == s.stacks && after.home == s.home && after.taken == s.taken && after.live <= s.live
    requires |after.queues| == |s.queues| && after.queues == s.queues[s.home[o] := NotTo(s.calls, s.queues[s.home[o]], o)]
    ensures Inv(after)
  {
    hide NotTo;
    forall u | 0 <= u < |s.queues|
      ensures QueueOk(after.home, after.calls, u, after.queues[u], after.taken[u])
      ensures forall d <- s.queues[u] :: d in after.queues[u] || (d < |s.calls| && s.calls[d].receiver == o)
    {
      assert QueueOk(s.home, s.calls, u, s.queues[u], s.taken[u]);
      hide QueueOk;
      DismissedQueue(s.home, s.calls, after.calls, o, u, s.queues[u], s.taken[u]);
    }
    DestroyShaped(s, after);
    hide QueueOk, Shaped;
    forall d | 0 <= d < |s.calls|
      ensures CallOk(after.calls[d])
    {
      assert CallOk(s.calls[d]);
    }
    hide CallOk;
    forall u | 0 <= u < |s.stacks|
      ensures StackOk(after.home, after.calls, u, after.stacks[u])
    {
      assert StackOk(s.home, s.calls, u, s.stacks[u]);
    }
    hide StackOk;
    forall d | 0 <= d < |s.calls|
      ensures Accounted(after, d)
    {
      assert Accounted(s, d);
    }
  }

  lemma DestroyShaped(s: State, after: State)
    requires Shaped(s)
    requires after.home == s.home && after.stacks == s.stacks && after.taken == s.taken && after.live <= s.live
    requires |after.calls| == |s.calls| && |after.queues| == |s.queues|
    requires forall d | 0 <= d < |s.calls| :: after.calls[d].receiver == s.calls[d].receiver
    requires forall u | 0 <= u < |s.queues| :: QueueOk(after.home, after.calls, u, after.queues[u], after.taken[u])
    ensures Shaped(after)
  {
    forall t, i | 0 <= t < |after.queues| && 0 <= i < |after.queues[t]|
      ensures after.queues[t][i] < |after.calls|
    {
      assert QueueOk(after.home, after.calls, t, after.queues[t], after.taken[t]);
      assert after.queues[t][i] in after.queues[t];
    }
  }

  // --- Runs.

  predicate Runs(s: State, actions: seq<Action>)
    requires Shaped(s)
    decreases |actions|
  {
    actions != [] ==>
      && Enabled(s, actions[0])
      && Shaped(Next(s, actions[0]))
      && Runs(Next(s, actions[0]), actions[1..])
  }

  function After(s: State, actions: seq<Action>): State
    requires Shaped(s) && Runs(s, actions)
    decreases |actions|
  {
    if actions == [] then s else After(Next(s, actions[0]), actions[1..])
  }

  /** n threads with nothing to do, and objects bound to them. */
  predicate Start(s: State) {
    && |s.stacks| == |s.queues| == |s.taken|
    && (forall t | 0 <= t < |s.stacks| :: s.stacks[t] == [])
    && (forall t | 0 <= t < |s.queues| :: s.queues[t] == [] && s.taken[t] == [])
    && (forall o | 0 <= o < |s.home| :: s.home[o] < |s.queues|)
    && (forall o <- s.live :: o < |s.home|)
    && s.calls == []
  }

  lemma StartInv(s: State)
    requires Start(s)
    ensures Inv(s)
  {
  }

  lemma StepKeeps(s: State, a: Action)
    requires Inv(s) && Enabled(s, a)
    ensures Inv(Next(s, a))
  {
    match a
    case Activate(t, o, connection, del) => ActivateKeeps(s, t, o, Effective(connection, t, s.home[o]), del);
    case Take(t) => TakeKeeps(s, t);
    case EndInvoke(t, v) => EndInvokeKeeps(s, t, v);
    case Release(t) => ReleaseKeeps(s, t);
    case EndMessage(t) => EndMessageKeeps(s, t);
    case Wake(t) => WakeKeeps(s, t);
    case Destroy(o) => DestroyKeeps(s, o);
  }

  lemma {:induction false} RunKeeps(s: State, actions: seq<Action>)
    requires Inv(s) && Runs(s, actions)
    ensures Inv(After(s, actions))
    decreases |actions|
  {
    if actions != [] {
      StepKeeps(s, actions[0]);
      hide Inv, Next;
      RunKeeps(Next(s, actions[0]), actions[1..]);
    }
  }

  /** Once activatePack() has said that the return value may be used, the method has run to its end and
    * its result is in the pack; a blocking call was taken by the receiver's thread exactly once. A
    * bound method is deleted at most once, not while it runs, and has been deleted once nothing needs
    * it any more. A semaphore never holds more than the one release nobody has acquired yet. */
  lemma AnsweredCallRan(s: State, actions: seq<Action>, c: nat)
    requires Start(s) && Runs(s, actions) && c < |After(s, actions).calls|
    ensures Inv(After(s, actions))
    ensures
      var after := After(s, actions);
      var call := after.calls[c];
      var h := after.home[call.receiver];
      && (call.answer == Some(true) ==> call.result.Some?)
      && (call.answer == Some(true) && call.mode.Blocking? ==> multiset(after.taken[h])[c] == 1)
      && (call.answer == Some(false) <==> call.mode.Queued?)
      && call.deletions <= 1
      && (InProgress(call) ==> call.deletions == 0)
      && (call.deletions == 1 <==> call.deleteMethod && (call.phase.Gone? || call.phase.Dropped?))
      && call.semaphore <= 1
  {
    StartInv(s);
    RunKeeps(s, actions);
    var after := After(s, actions);
    var h := after.home[after.calls[c].receiver];
    hide Runs, After, StackOk, Start;
    assert Accounted(after, c) && CallOk(after.calls[c]);
    assert QueueOk(after.home, after.calls, h, after.queues[h], after.taken[h]);
    assert after.taken[h] + after.queues[h] == [] + (after.taken[h] + after.queues[h]);
    TakenOnce(after.taken[h], after.queues[h], c);
  }

  lemma TakenOnce(taken: seq<nat>, queue: seq<nat>, c: nat)
    requires Increasing(taken + queue)
    ensures multiset(taken)[c] == if c in taken then 1 else 0
  {
    IncreasingTake(taken, queue);
    hide Increasing;
    assert [] + taken == taken;
    OnceInIncreasing(taken, [], c);
  }

  lemma IncreasingTake(ids: seq<nat>, more: seq<nat>)
    requires Increasing(ids + more)
    ensures Increasing(ids)
    ensures forall x, y | x in ids && y in more :: x < y
  {
    var all := ids + more;
    assert forall i | 0 <= i < |ids| :: all[i] == ids[i];
    assert forall i | 0 <= i < |more| :: all[|ids| + i] == more[i];
  }

  /** Calls to objects of one thread that go through its queue are run in the order in which they were
    * made: a later one is never taken unless the earlier one was taken before it or dropped. */
  lemma PostedInOrder(s: State, b: nat, c: nat)
    requires Inv(s) && b < c < |s.calls|
    requires Home(s, b) == Home(s, c) && !s.calls[b].mode.Direct? && WasTaken(s.calls[c])
    ensures
      || s.calls[b].phase.Dropped?
      || exists i, j | 0 <= i < j < |s.taken[Home(s, c)]| :: s.taken[Home(s, c)][i] == b && s.taken[Home(s, c)][j] == c
  {
    var h := Home(s, c);
    assert Accounted(s, b) && Accounted(s, c) && CallOk(s.calls[b]);
    assert QueueOk(s.home, s.calls, h, s.queues[h], s.taken[h]);
    IncreasingTake(s.taken[h], s.queues[h]);
    hide StackOk;
    var j :| 0 <= j < |s.taken[h]| && s.taken[h][j] == c;
    if !s.calls[b].phase.Dropped? {
      assert !IsPosted(s.calls[b]);
      var i :| 0 <= i < |s.taken[h]| && s.taken[h][i] == b;
      assert i < j;
    }
  }

  function Home(s: State, c: nat): Thread
    requires Shaped(s) && c < |s.calls|
  {
    s.home[s.calls[c].receiver]
  }

  /** A result is stored once, a dropped call stays dropped and unanswered. */
  lemma StepIsFinal(s: State, a: Action, c: nat)
    requires Inv(s) && Enabled(s, a) && c < |s.calls|
    ensures
      var after := Next(s, a);
      && c < |after.calls| && SameCall(s.calls[c], after.calls[c])
      && (s.calls[c].result.Some? ==> after.calls[c].result == s.calls[c].result)
      && (s.calls[c].phase.Dropped? ==> after.calls[c] == s.calls[c])
  {
    hide StackOk, QueueOk, Accounted;
    assert CallOk(s.calls[c]);
    match a
    case Destroy(o) => DestroyDismisses(s, o);
    case Activate(_, _, _, _) =>
    case Take(t) => TakeQueues(s, t);
    case EndInvoke(t, v) => TopOk(s, t);
    case Release(t) => TopOk(s, t);
    case EndMessage(t) => TopOk(s, t);
    case Wake(t) => TopOk(s, t);
  }

  /** Every call is invoked at most once, and a blocking call whose receiver is deleted before its message
    * is taken never returns, whatever happens next. */
  lemma {:induction false} RunIsFinal(s: State, actions: seq<Action>, c: nat)
    requires Inv(s) && Runs(s, actions) && c < |s.calls|
    ensures
      var after := After(s, actions);
      && c < |after.calls| && SameCall(s.calls[c], after.calls[c])
      && (s.calls[c].result.Some? ==> after.calls[c].result == s.calls[c].result)
      && (s.calls[c].phase.Dropped? ==> after.calls[c] == s.calls[c])
      && (s.calls[c].phase.Dropped? && s.calls[c].mode.Blocking? ==> after.calls[c].answer.None?)
    decreases |actions|
  {
    assert CallOk(s.calls[c]);
    if actions != [] {
      StepKeeps(s, actions[0]);
      StepIsFinal(s, actions[0], c);
      hide Inv, Next, Enabled;
      RunIsFinal(Next(s, actions[0]), actions[1..], c);
    }
  }

  /** One thread calls an object of another and waits; the object is deleted before its thread takes the message. */
  lemma DroppedCallerWaits()
    ensures
      var s := State([1], {0}, [], [[], []], [[], []], [[], []]);
      var actions := [Activate(0, 0, Blocking, false), Destroy(0)];
      && Start(s) && Runs(s, actions)
      && (var after := After(s, actions);
          && |after.calls| == 1 && after.calls[0].mode.Blocking? && after.calls[0].phase.Dropped?
          && after.calls[0].answer.None? && after.stacks == [[Wait(0)], []])
  {
    hide Next, Enabled, Shaped, Runs, After;
    FirstWaits();
    FirstDropped();
    TwoSteps(State([1], {0}, [], [[], []], [[], []], [[], []]), Activate(0, 0, Blocking, false), Destroy(0));
  }

  lemma TwoSteps(s: State, a: Action, b: Action)
    requires Shaped(s) && Enabled(s, a) && Shaped(Next(s, a)) && Enabled(Next(s, a), b) && Shaped(Next(Next(s, a), b))
    ensures Runs(s, [a, b]) && After(s, [a, b]) == Next(Next(s, a), b)
  {
    hide Next, Enabled, Shaped;
    var s1 := Next(s, a);
    var s2 := Next(s1, b);
    assert [a, b][1..] == [b] && [b][1..] == [];
    assert Runs(s2, []) && Runs(s1, [b]);
    assert After(s1, [b]) == After(s2, []) == s2;
  }

  /** Thread 0 waits for a call to object 0 of thread 1, which is in this phase. */
  function OneWaits(phase: Phase, live: set<Object>, queue: seq<nat>): State {
    State([1], live, [Call(0, 0, Blocking, false, phase, None, None, 0, 0)], [[], queue], [[Wait(0)], []], [[], []])
  }

  lemma FirstWaits()
    ensures
      var s := State([1], {0}, [], [[], []], [[], []], [[], []]);
      && Shaped(s) && Enabled(s, Activate(0, 0, Blocking, false))
      && Next(s, Activate(0, 0, Blocking, false)) == OneWaits(Posted, {0}, [0]) && Shaped(OneWaits(Posted, {0}, [0]))
  {
    var s := State([1], {0}, [], [[], []], [[], []], [[], []]);
    assert s.queues[1] + [0] == [0] && s.stacks[0] + [Wait(0)] == [Wait(0)];
    var s1 := OneWaits(Posted, {0}, [0]);
    assert s.queues[1 := [0]] == s1.queues && s.stacks[0 := [Wait(0)]] == s1.stacks && s.calls + s1.calls == s1.calls;
  }

  lemma FirstDropped()
    ensures
      var s := OneWaits(Posted, {0}, [0]);
      && Shaped(s) && Enabled(s, Destroy(0))
      && Next(s, Destroy(0)) == OneWaits(Dropped, {}, []) && Shaped(OneWaits(Dropped, {}, []))
  {
    var s, s1 := OneWaits(Posted, {0}, [0]), OneWaits(Dropped, {}, []);
    var after := AfterDestroy(s, 0);
    assert multiset([0])[0] == 1;
    assert after.calls == s1.calls;
    assert NotTo(s.calls, [0], 0) == [] by { assert [0][..0] == []; }
    assert s.queues[1 := []] == s1.queues && {0} - {0} == {};
  }
}
