/** A camera, its frame buffer allocator and what the pipeline holds for each stream, over any sequence of calls. */
module CameraStates {
  import opened Bytes

  const EACCES: int := 13
  const EBUSY: int := 16
  const ENODEV: int := 19
  const EINVAL: int := 22

  datatype State = Available | Acquired | Configured | Running

  type Stream = nat

  /** What the pipeline handler keeps for a stream between an import or export and the free. */
  datatype Holding = Imported | Exported

  /** allocator maps each stream with an entry to the number of buffers in its vector; twice records
      an import or export for a stream that was already held. */
  datatype Camera = Camera(
    state: State,
    disconnected: bool,
    active: set<Stream>,
    allocator: Option<map<Stream, nat>>,
    held: map<Stream, Holding>,
    twice: bool)
  {
    /** Served by buffers of the allocator. */
    predicate Backed(s: Stream) {
      allocator.Some? && s in allocator.value && allocator.value[s] > 0
    }
  }

  const NEW := Camera(Available, false, {}, None, map[], false)

  function Rank(s: State): nat {
    match s
    case Available => 0
    case Acquired => 1
    case Configured => 2
    case Running => 3
  }

  /** isAccessAllowed(low, high). */
  function Access(c: Camera, low: State, high: State, allowDisconnected: bool): int {
    if !allowDisconnected && c.disconnected then -ENODEV
    else if Rank(low) <= Rank(c.state) <= Rank(high) then 0
    else -EACCES
  }

  datatype Call =
    | Acquire(lock: bool)
    | Release
    | Configure(valid: bool, pipeline: int, streams: set<Stream>)
    | Start(pipeline: int)
    | Stop
    | CreateAllocator
    | DeleteAllocator
    | Allocate(s: Stream, pipeline: int)
    | Free(s: Stream)
    | Disconnect

  /** The pipeline is asked to import or export for these streams. */
  function Hold(c: Camera, ss: set<Stream>, h: Holding): Camera {
    c.(held := c.held + map s | s in ss :: h, twice := c.twice || exists s <- ss :: s in c.held)
  }

  lemma HoldOneMore(c: Camera, ss: set<Stream>, s: Stream, h: Holding)
    requires s !in ss
    ensures var c1 := Hold(c, ss, h);
            Hold(c, ss + {s}, h) == c1.(held := c1.held[s := h], twice := c1.twice || s in c1.held)
    ensures Hold(c, {}, h) == c
  {
  }

  function Drop(c: Camera, ss: set<Stream>): Camera {
    c.(held := c.held - ss)
  }

  function Busy(ret: int): int {
    if ret == -EACCES then -EBUSY else ret
  }

  function DoAcquire(c: Camera, lock: bool): (Camera, int) {
    var ret := Access(c, Available, Available, false);
    if ret < 0 then (c, Busy(ret))
    else if !lock then (c, -EBUSY)
    else (c.(state := Acquired), 0)
  }

  function DoRelease(c: Camera): (Camera, int) {
    var ret := Access(c, Available, Configured, true);
    if ret < 0 then (c, Busy(ret))
    else if c.allocator.Some? then (c, -EBUSY)
    else (c.(state := Available), 0)
  }

  function DoConfigure(c: Camera, valid: bool, pipeline: int, streams: set<Stream>): (Camera, int) {
    var ret := Access(c, Acquired, Configured, false);
    if ret < 0 then (c, ret)
    else if c.allocator.Some? && c.allocator.value != map[] then (c, -EBUSY)
    else if !valid then (c, -EINVAL)
    else if pipeline != 0 then (c, pipeline)
    else (c.(active := streams, state := Configured), 0)
  }

  /** The active streams that the allocator does not serve. */
  function Unbacked(c: Camera): set<Stream> {
    set s <- c.active | !c.Backed(s)
  }

  function DoStart(c: Camera, pipeline: int): (Camera, int) {
    var ret := Access(c, Configured, Configured, false);
    if ret < 0 then (c, ret)
    else
      var c1 := Hold(c, Unbacked(c), Imported);
      if pipeline != 0 then (c1, pipeline) else (c1.(state := Running), 0)
  }

  function DoStop(c: Camera): (Camera, int) {
    var ret := Access(c, Running, Running, false);
    if ret < 0 then (c, ret)
    else (Drop(c.(state := Configured), Unbacked(c)), 0)
  }

  function FreeFrameBuffers(c: Camera, ss: set<Stream>): (Camera, int) {
    var ret := Access(c, Configured, Configured, true);
    if ret < 0 then (c, ret) else (Drop(c, ss), 0)
  }

  /** A vector entry is made before the export is tried, and stays empty if it fails. */
  function DoAllocate(c: Camera, s: Stream, pipeline: int): (Camera, int) {
    if c.allocator.None? then (c, 0)
    else if s in c.allocator.value then (c, -EBUSY)
    else
      var c1 := c.(allocator := Some(c.allocator.value[s := 0]));
      var ret := Access(c, Configured, Configured, false);
      if ret < 0 then (c1, ret)
      else if s !in c.active then (c1, -EINVAL)
      else if pipeline <= 0 then (c1, pipeline)
      else (Hold(c.(allocator := Some(c.allocator.value[s := pipeline])), {s}, Exported), pipeline)
  }

  function DoFree(c: Camera, s: Stream): (Camera, int) {
    if c.allocator.None? then (c, 0)
    else if s !in c.allocator.value then (c, -EINVAL)
    else
      var (c1, ret) := FreeFrameBuffers(c, {s});
      if ret < 0 then (c, ret) else (c1.(allocator := Some(c.allocator.value - {s})), 0)
  }

  function DoDeleteAllocator(c: Camera): Camera {
    if c.allocator.None? then c
    else FreeFrameBuffers(c, c.allocator.value.Keys).0.(allocator := None)
  }

  function DoDisconnect(c: Camera): Camera {
    c.(state := if c.state == Running then Configured else c.state, disconnected := true)
  }

  /** The state after a call, and what it returns. */
  function Do(c: Camera, call: Call): (Camera, int) {
    match call
    case Acquire(lock) => DoAcquire(c, lock)
    case Release => DoRelease(c)
    case Configure(valid, pipeline, streams) => DoConfigure(c, valid, pipeline, streams)
    case Start(pipeline) => DoStart(c, pipeline)
    case Stop => DoStop(c)
    case CreateAllocator => (if c.allocator.Some? then c else c.(allocator := Some(map[])), 0)
    case DeleteAllocator => (DoDeleteAllocator(c), 0)
    case Allocate(s, pipeline) => DoAllocate(c, s, pipeline)
    case Free(s) => DoFree(c, s)
    case Disconnect => (DoDisconnect(c), 0)
  }

  function Run(c: Camera, calls: seq<Call>): Camera
    decreases |calls|
  {
    if calls == [] then c else Run(Do(c, calls[0]).0, calls[1..])
  }

  // --- Safety over any sequence of calls.

  predicate Safe(c: Camera) {
    && (forall s | c.allocator.Some? && s in c.allocator.value :: c.Backed(s) ==> s in c.active && Rank(c.state) >= 2)
    && (c.disconnected ==> c.state != Running)
  }

  /** The documented edges, and Running to Configured when the hardware goes away. */
  predicate Edge(from: Camera, call: Call, to: Camera) {
    from.state == to.state ||
    (match call
     case Acquire(_) => from.state == Available && to.state == Acquired
     case Release => to.state == Available && from.state != Running
     case Configure(_, _, _) => from.state == Acquired && to.state == Configured
     case Start(_) => from.state == Configured && to.state == Running
     case Stop => from.state == Running && to.state == Configured
     case Disconnect => from.state == Running && to.state == Configured
     case _ => false)
  }

  lemma DoIsSafe(c: Camera, call: Call)
    requires Safe(c)
    ensures Safe(Do(c, call).0) && Edge(c, call, Do(c, call).0)
    ensures c.disconnected ==> Do(c, call).0.disconnected
  {
  }

  lemma {:induction false} RunIsSafe(c: Camera, calls: seq<Call>)
    requires Safe(c)
    ensures Safe(Run(c, calls))
    decreases |calls|
  {
    if calls != [] {
      DoIsSafe(c, calls[0]);
      RunIsSafe(Do(c, calls[0]).0, calls[1..]);
    }
  }

  /** Whatever an application calls, in whatever order, and whenever the device is unplugged: exported buffers are
      only ever there for active streams of a configured or running camera that has its allocator, and a
      disconnected camera is never running. */
  lemma AllocatorSafety(calls: seq<Call>)
    ensures var c := Run(NEW, calls);
      && (forall s :: c.Backed(s) ==> s in c.active && (c.state == Configured || c.state == Running))
      && (c.disconnected ==> c.state != Running)
  {
    RunIsSafe(NEW, calls);
  }

  // --- Balance of what the pipeline holds.

  predicate Balanced(c: Camera) {
    && !c.twice
    && (forall s <- c.held :: s in c.active)
    && (forall s | c.allocator.Some? && s in c.allocator.value :: c.Backed(s) ==> s in c.held && c.held[s] == Exported)
    && if c.state == Running then forall s <- c.active :: s in c.held
       else forall s <- c.held :: c.Backed(s)
  }

  /** The two calls that upset it: a start the pipeline refuses, and a disconnection while running. */
  predicate Gentle(c: Camera, call: Call) {
    && (call.Start? && call.pipeline != 0 && Access(c, Configured, Configured, false) == 0 ==> Unbacked(c) == {})
    && (call.Disconnect? && c.state == Running ==> Unbacked(c) == {})
  }

  lemma StartBalancedIff(c: Camera, pipeline: int)
    requires Safe(c) && Balanced(c)
    ensures Balanced(DoStart(c, pipeline).0) <==> Gentle(c, Start(pipeline))
  {
    var c', ss := DoStart(c, pipeline).0, Unbacked(c);
    assert (forall s :: s !in ss) ==> ss == {};
    if Access(c, Configured, Configured, false) == 0 {
      assert c'.allocator == c.allocator && c'.active == c.active;
      assert forall s <- ss :: s !in c.held;
      assert forall s :: s in c'.held <==> s in c.held || s in ss;
      assert forall s <- ss :: s in c'.held && !c'.Backed(s);
    }
  }

  lemma DisconnectBalancedIff(c: Camera)
    requires Safe(c) && Balanced(c)
    ensures Balanced(DoDisconnect(c)) <==> Gentle(c, Disconnect)
  {
    var c', ss := DoDisconnect(c), Unbacked(c);
    assert (forall s :: s !in ss) ==> ss == {};
    assert forall s :: c'.Backed(s) <==> c.Backed(s);
    if c.state == Running {
      assert forall s <- ss :: s in c'.held && !c'.Backed(s);
      assert forall s <- c'.held :: s in c.active && (s !in ss ==> c'.Backed(s));
    }
  }

  lemma DeleteBalanced(c: Camera)
    requires Safe(c) && Balanced(c)
    ensures Balanced(DoDeleteAllocator(c))
  {
    if c.state == Configured && c.allocator.Some? {
      assert forall s <- c.held :: s in c.allocator.value;
    }
  }

  lemma OtherBalanced(c: Camera, call: Call)
    requires Safe(c) && Balanced(c) && !call.Start? && !call.Disconnect? && !call.DeleteAllocator?
    ensures Balanced(Do(c, call).0)
  {
    if call.Configure? && Do(c, call).1 == 0 && Do(c, call).0 != c {
      assert forall s :: !c.Backed(s);
    }
  }

  /** Exactly those calls, and only while some active stream has no buffers of the allocator. */
  lemma DoBalancedIff(c: Camera, call: Call)
    requires Safe(c) && Balanced(c)
    ensures Balanced(Do(c, call).0) <==> Gentle(c, call)
  {
    match call
    case Start(pipeline) => StartBalancedIff(c, pipeline);
    case Disconnect => DisconnectBalancedIff(c);
    case DeleteAllocator => DeleteBalanced(c);
    case _ => OtherBalanced(c, call);
  }

  predicate GentleRun(c: Camera, calls: seq<Call>)
    decreases |calls|
  {
    calls != [] ==> Gentle(c, calls[0]) && GentleRun(Do(c, calls[0]).0, calls[1..])
  }

  lemma {:induction false} RunIsBalanced(c: Camera, calls: seq<Call>)
    requires Safe(c) && Balanced(c) && GentleRun(c, calls)
    ensures Safe(Run(c, calls)) && Balanced(Run(c, calls))
    decreases |calls|
  {
    if calls != [] {
      DoIsSafe(c, calls[0]);
      DoBalancedIff(c, calls[0]);
      RunIsBalanced(Do(c, calls[0]).0, calls[1..]);
    }
  }

  /** In such runs the pipeline holds something for every active stream while running and for nothing else,
      only what the allocator still serves while configured, nothing otherwise, and it is never asked
      twice for the same stream. */
  lemma BufferBalance(calls: seq<Call>)
    requires GentleRun(NEW, calls)
    ensures var c := Run(NEW, calls);
      && !c.twice
      && (c.state == Running ==> c.held.Keys == c.active)
      && (c.state == Configured ==> forall s :: s in c.held <==> c.Backed(s))
      && (Rank(c.state) < 2 ==> c.held == map[])
  {
    RunIsBalanced(NEW, calls);
    var c := Run(NEW, calls);
    if Rank(c.state) < 2 {
      assert forall s <- c.held :: c.Backed(s);
    }
  }

  /** The pipeline's buffers stay balanced throughout a run iff no call on the way is a refused start, or a
    * disconnection while running, that meets a stream the allocator does not serve. */
  lemma {:induction false} BalancedThroughoutIff(c: Camera, calls: seq<Call>)
    requires Safe(c) && Balanced(c)
    ensures (forall k | 0 <= k <= |calls| :: Balanced(Run(c, calls[..k]))) <==> GentleRun(c, calls)
    decreases |calls|
  {
    if calls == [] {
      assert calls[..0] == [];
    } else {
      var next := Do(c, calls[0]).0;
      DoIsSafe(c, calls[0]);
      DoBalancedIff(c, calls[0]);
      RunFromNext(c, calls);
      hide Balanced, Gentle, Do, Safe, Run;
      if Balanced(next) {
        BalancedThroughoutIff(next, calls[1..]);
        assert forall k | 0 <= k <= |calls| - 1 :: Run(next, calls[1..][..k]) == Run(c, calls[..k + 1]);
        assert forall k | 0 < k <= |calls| :: Run(c, calls[..k]) == Run(next, calls[1..][..k - 1]);
      } else {
        assert Run(c, calls[..1]) == Run(next, calls[1..][..0]) == next;
      }
    }
  }

  lemma RunFromNext(c: Camera, calls: seq<Call>)
    requires calls != []
    ensures Run(c, calls[..0]) == c && Run(Do(c, calls[0]).0, calls[1..][..0]) == Do(c, calls[0]).0
    ensures forall k | 0 < k <= |calls| :: Run(c, calls[..k]) == Run(Do(c, calls[0]).0, calls[1..][..k - 1])
  {
    hide Do;
    forall k | 0 < k <= |calls|
      ensures Run(c, calls[..k]) == Run(Do(c, calls[0]).0, calls[1..][..k - 1])
    {
      assert calls[..k][1..] == calls[1..][..k - 1];
    }
  }

  /** The shortest run that leaves a buffer behind: the pipeline refuses to start, and the imported buffer stays. */
  lemma RefusedStartLeavesBuffers()
    ensures
      var c := Run(NEW, [Acquire(true), Configure(true, 0, {1}), Start(-5)]);
      c.state == Configured && 1 in c.held && !c.Backed(1) && !Balanced(c)
  {
    var c1 := Do(NEW, Acquire(true)).0;
    var c2 := Do(c1, Configure(true, 0, {1})).0;
    var c3 := Do(c2, Start(-5)).0;
    assert [Acquire(true), Configure(true, 0, {1}), Start(-5)][1..] == [Configure(true, 0, {1}), Start(-5)];
    assert [Configure(true, 0, {1}), Start(-5)][1..] == [Start(-5)];
    assert Run(NEW, [Acquire(true), Configure(true, 0, {1}), Start(-5)]) == Run(c1, [Configure(true, 0, {1}), Start(-5)])
        == Run(c2, [Start(-5)]) == Run(c3, []) == c3;
    assert 1 in Unbacked(c2);
  }

  lemma HoldSingle(c: Camera, s: Stream, h: Holding)
    ensures Hold(c, {s}, h) == c.(held := c.held[s := h], twice := c.twice || s in c.held)
  {
    HoldOneMore(c, {}, s, h);
    assert {} + {s} == {s};
  }
}
