/** Frames of the GStreamer allocator: which are in their pool, which planes are out, who holds references. */
module FrameStates {
  import opened Bytes

  type Stream = nat
  type Buffer = nat

  /** planes holds the references to each memory that others own; zero when the frame keeps it itself. */
  datatype Frame = Frame(stream: Stream, planes: seq<nat>, outstanding: int)

  /** pools has a queue of frames for each stream. buffers are the GstBuffers that hold the memories of a
    * frame. refs is the reference count of the allocator, of which external belong to others than memories. */
  datatype State = State(
    frames: seq<Frame>, pools: map<Stream, seq<nat>>, buffers: map<Buffer, nat>, refs: int, external: nat)

  datatype Op =
    | Prepare(stream: Stream, buffer: Buffer)
    | TakeRef(frame: nat, plane: nat)
    | DropRef(frame: nat, plane: nat)
    | Reset(buffer: Buffer)
    | Own
    | Disown

  function CountOut(planes: seq<nat>): nat {
    if planes == [] then 0
    else CountOut(planes[..|planes| - 1]) + if planes[|planes| - 1] > 0 then 1 else 0
  }

  function Total(frames: seq<Frame>): int {
    if frames == [] then 0
    else Total(frames[..|frames| - 1]) + frames[|frames| - 1].outstanding
  }

  predicate Holds(s: State, f: nat) {
    f in s.buffers.Values
  }

  /** What callers may do: prepare an empty buffer, and drop references they have. */
  predicate Enabled(s: State, op: Op) {
    match op
    case Prepare(_, b) => b !in s.buffers
    case TakeRef(f, i) => f < |s.frames| && i < |s.frames[f].planes| && s.frames[f].planes[i] > 0
    case DropRef(f, i) => Droppable(s, f, i)
    case Reset(b) =>
      && b in s.buffers && s.buffers[b] < |s.frames|
      && (forall i | 0 <= i < |s.frames[s.buffers[b]].planes| :: s.frames[s.buffers[b]].planes[i] > 0)
    case Own => true
    case Disown => s.external > 0
  }

  /** Somebody other than a buffer of the pool has a reference to the memory. */
  predicate Droppable(s: State, f: nat, i: nat) {
    && f < |s.frames| && i < |s.frames[f].planes|
    && s.frames[f].planes[i] > if Holds(s, f) then 1 else 0
  }

  /** gst_libcamera_allocator_prepare_buffer(): the first frame of the pool, if there is one. */
  function Prepared(s: State, stream: Stream): Option<nat> {
    if stream in s.pools && s.pools[stream] != [] then Some(s.pools[stream][0]) else None
  }

  function AllOut(fr: Frame): Frame {
    fr.(planes := seq(|fr.planes|, _ => 1), outstanding := fr.outstanding + |fr.planes|)
  }

  function AfterPrepare(s: State, stream: Stream, b: Buffer): State {
    match Prepared(s, stream)
    case None => s
    case Some(f) =>
      if f >= |s.frames| then s
      else
        s.(pools := s.pools[stream := s.pools[stream][1..]],
           frames := s.frames[f := AllOut(s.frames[f])],
           buffers := s.buffers[b := f],
           refs := s.refs + |s.frames[f].planes|)
  }

  /** gst_memory_unref(), and gst_libcamera_allocator_release() when that was the last reference. */
  function DropPlane(s: State, f: nat, i: nat): State
    requires f < |s.frames| && i < |s.frames[f].planes| && s.frames[f].planes[i] > 0
  {
    var fr := s.frames[f];
    var left := fr.planes[i] - 1;
    var planes := fr.planes[i := left];
    if left > 0 then s.(frames := s.frames[f := fr.(planes := planes)])
    else
      s.(frames := s.frames[f := fr.(planes := planes, outstanding := fr.outstanding - 1)],
         pools := if fr.outstanding - 1 == 0 && fr.stream in s.pools
                  then s.pools[fr.stream := s.pools[fr.stream] + [f]] else s.pools,
         refs := s.refs - 1)
  }

  /** The planes of a frame are dropped one after the other, from i on. */
  function DropFrom(s: State, f: nat, i: nat): State
    requires f < |s.frames| && i <= |s.frames[f].planes|
    requires forall j | i <= j < |s.frames[f].planes| :: s.frames[f].planes[j] > 0
    decreases |s.frames[f].planes| - i
  {
    if i == |s.frames[f].planes| then s else DropFrom(DropPlane(s, f, i), f, i + 1)
  }

  function Next(s: State, op: Op): State
    requires Enabled(s, op)
  {
    match op
    case Prepare(stream, b) => AfterPrepare(s, stream, b)
    case TakeRef(f, i) =>
      var fr := s.frames[f];
      s.(frames := s.frames[f := fr.(planes := fr.planes[i := fr.planes[i] + 1])])
    case DropRef(f, i) => DropPlane(s, f, i)
    case Reset(b) => DropFrom(s.(buffers := s.buffers - {b}), s.buffers[b], 0)
    case Own => s.(refs := s.refs + 1, external := s.external + 1)
    case Disown => s.(refs := s.refs - 1, external := s.external - 1)
  }

  // --- What every operation keeps.

  predicate NoDuplicates(q: seq<nat>) {
    forall i, j | 0 <= i < j < |q| :: q[i] != q[j]
  }

  predicate PoolOk(s: State, stream: Stream)
    requires stream in s.pools
  {
    && NoDuplicates(s.pools[stream])
    && forall f <- s.pools[stream] ::
         f < |s.frames| && s.frames[f].stream == stream && s.frames[f].outstanding == 0 && !Holds(s, f)
  }

  /** The counter counts the memories that are out, and a frame with none out is in its pool. */
  predicate FrameOk(s: State, f: nat)
    requires f < |s.frames|
  {
    var fr := s.frames[f];
    && fr.outstanding == CountOut(fr.planes)
    && fr.stream in s.pools
    && (fr.planes != [] && fr.outstanding == 0 ==> f in s.pools[fr.stream])
  }

  /** A buffer has a reference to every memory of its frame, which is no other buffer's. */
  predicate BuffersOk(s: State) {
    && (forall b <- s.buffers :: s.buffers[b] < |s.frames| &&
          forall i | 0 <= i < |s.frames[s.buffers[b]].planes| :: s.frames[s.buffers[b]].planes[i] > 0)
    && (forall b, c | b in s.buffers && c in s.buffers && b != c :: s.buffers[b] != s.buffers[c])
  }

  predicate Inv(s: State) {
    && (forall stream <- s.pools :: PoolOk(s, stream))
    && (forall f | 0 <= f < |s.frames| :: FrameOk(s, f))
    && BuffersOk(s)
    && s.refs == s.external + Total(s.frames)
  }

  lemma {:induction false} CountOutSet(planes: seq<nat>, i: nat, n: nat)
    requires i < |planes|
    ensures
      CountOut(planes[i := n])
      == CountOut(planes) - (if planes[i] > 0 then 1 else 0) + (if n > 0 then 1 else 0)
    decreases |planes|
  {
    var k := |planes| - 1;
    if i == k {
      assert planes[i := n][..k] == planes[..k];
    } else {
      CountOutSet(planes[..k], i, n);
      assert planes[i := n][..k] == planes[..k][i := n];
    }
  }

  lemma {:induction false} TotalSet(frames: seq<Frame>, f: nat, fr: Frame)
    requires f < |frames|
    ensures Total(frames[f := fr]) == Total(frames) - frames[f].outstanding + fr.outstanding
    decreases |frames|
  {
    var k := |frames| - 1;
    if f == k {
      assert frames[f := fr][..k] == frames[..k];
    } else {
      TotalSet(frames[..k], f, fr);
      assert frames[f := fr][..k] == frames[..k][f := fr];
    }
  }

  lemma {:induction false} CountOutBounds(planes: seq<nat>)
    ensures CountOut(planes) == 0 <==> forall i | 0 <= i < |planes| :: planes[i] == 0
    ensures CountOut(planes) == |planes| <==> forall i | 0 <= i < |planes| :: planes[i] > 0
    ensures CountOut(planes) <= |planes|
    decreases |planes|
  {
    if planes != [] {
      var k := |planes| - 1;
      CountOutBounds(planes[..k]);
      assert forall i | 0 <= i < k :: planes[..k][i] == planes[i];
      assert (forall i | 0 <= i < |planes| :: planes[i] == 0) <==> planes[k] == 0 && forall i | 0 <= i < k :: planes[..k][i] == 0;
      assert (forall i | 0 <= i < |planes| :: planes[i] > 0) <==> planes[k] > 0 && forall i | 0 <= i < k :: planes[..k][i] > 0;
    }
  }

  lemma DropPlaneKeeps(s: State, f: nat, i: nat)
    requires Inv(s) && Droppable(s, f, i)
    ensures Inv(DropPlane(s, f, i))
  {
    var after := DropPlane(s, f, i);
    var fr := s.frames[f];
    assert FrameOk(s, f);
    CountOutSet(fr.planes, i, fr.planes[i] - 1);
    CountOutBounds(fr.planes);
    TotalSet(s.frames, f, after.frames[f]);
    assert FrameOk(after, f);
    hide CountOut, Total;
    forall g | 0 <= g < |s.frames|
      ensures FrameOk(after, g)
    {
      assert FrameOk(s, g);
    }
    DropPlanePools(s, f, i);
    hide PoolOk, FrameOk;
  }

  lemma DropPlanePools(s: State, f: nat, i: nat)
    requires Inv(s) && Droppable(s, f, i)
    ensures forall stream <- DropPlane(s, f, i).pools :: PoolOk(DropPlane(s, f, i), stream)
  {
    var after, fr := DropPlane(s, f, i), s.frames[f];
    assert FrameOk(s, f);
    CountOutBounds(fr.planes);
    hide CountOut, Total;
    assert f !in s.pools[fr.stream] by {
      assert PoolOk(s, fr.stream);
    }
    forall stream <- after.pools
      ensures PoolOk(after, stream)
    {
      assert PoolOk(s, stream);
    }
  }

  lemma DropFromKeeps(s: State, f: nat, i: nat)
    requires Inv(s) && f < |s.frames| && !Holds(s, f)
    requires i <= |s.frames[f].planes|
    requires forall j | i <= j < |s.frames[f].planes| :: s.frames[f].planes[j] > 0
    ensures Inv(DropFrom(s, f, i))
    decreases |s.frames[f].planes| - i
  {
    if i < |s.frames[f].planes| {
      DropPlaneKeeps(s, f, i);
      var next := DropPlane(s, f, i);
      assert next.buffers == s.buffers && |next.frames[f].planes| == |s.frames[f].planes|;
      hide Inv;
      DropFromKeeps(next, f, i + 1);
    }
  }

  lemma PreparePools(s: State, stream: Stream, b: Buffer, other: Stream)
    requires Inv(s) && b !in s.buffers && Prepared(s, stream).Some? && other in s.pools
    ensures PoolOk(AfterPrepare(s, stream, b), other)
  {
    var f, after := Prepared(s, stream).value, AfterPrepare(s, stream, b);
    assert PoolOk(s, stream) && PoolOk(s, other);
    assert f in s.pools[stream];
    hide FrameOk, BuffersOk;
    forall g <- after.pools[other]
      ensures g < |after.frames| && after.frames[g].stream == other && after.frames[g].outstanding == 0
      ensures !Holds(after, g)
    {
      assert g in s.pools[other];
      assert g != f;
      assert after.frames[g] == s.frames[g];
    }
  }

  lemma PrepareKeeps(s: State, stream: Stream, b: Buffer)
    requires Inv(s) && b !in s.buffers
    ensures Inv(AfterPrepare(s, stream, b))
  {
    if Prepared(s, stream).Some? {
      var f := Prepared(s, stream).value;
      var after := AfterPrepare(s, stream, b);
      assert PoolOk(s, stream) && f in s.pools[stream];
      forall other <- s.pools
        ensures PoolOk(after, other)
      {
        PreparePools(s, stream, b, other);
      }
      hide PoolOk;
      PrepareFrames(s, stream, b);
      TotalSet(s.frames, f, AllOut(s.frames[f]));
      PrepareBuffers(s, stream, b);
      hide FrameOk, Total, BuffersOk;
    }
  }

  lemma PrepareBuffers(s: State, stream: Stream, b: Buffer)
    requires Inv(s) && b !in s.buffers && Prepared(s, stream).Some?
    ensures BuffersOk(AfterPrepare(s, stream, b))
  {
    hide FrameOk, Total;
    var f := Prepared(s, stream).value;
    assert PoolOk(s, stream) && f in s.pools[stream];
    assert forall c <- s.buffers :: s.buffers[c] in s.buffers.Values;
  }

  lemma PrepareFrames(s: State, stream: Stream, b: Buffer)
    requires Inv(s) && Prepared(s, stream).Some? && Prepared(s, stream).value < |s.frames|
    ensures
      var after := AfterPrepare(s, stream, b);
      && (forall g | 0 <= g < |s.frames| :: FrameOk(after, g))
      && after.frames[Prepared(s, stream).value].outstanding == |s.frames[Prepared(s, stream).value].planes|
      && s.frames[Prepared(s, stream).value].outstanding == 0
  {
    var f, after := Prepared(s, stream).value, AfterPrepare(s, stream, b);
    assert PoolOk(s, stream) && f in s.pools[stream];
    var fr := s.frames[f];
    assert FrameOk(s, f);
    CountOutBounds(AllOut(fr).planes);
    assert FrameOk(after, f);
    hide CountOut, BuffersOk, PoolOk;
    forall g | 0 <= g < |s.frames|
      ensures FrameOk(after, g)
    {
      assert FrameOk(s, g);
    }
  }

  lemma TakeRefKeeps(s: State, f: nat, i: nat)
    requires Inv(s) && Enabled(s, TakeRef(f, i))
    ensures Inv(Next(s, TakeRef(f, i)))
  {
    var after := Next(s, TakeRef(f, i));
    assert FrameOk(s, f);
    CountOutSet(s.frames[f].planes, i, s.frames[f].planes[i] + 1);
    TotalSet(s.frames, f, after.frames[f]);
    hide CountOut, Total;
    forall g | 0 <= g < |s.frames|
      ensures FrameOk(after, g)
    {
      assert FrameOk(s, g);
    }
    forall stream <- after.pools
      ensures PoolOk(after, stream)
    {
      assert PoolOk(s, stream);
    }
  }

  lemma StepKeeps(s: State, op: Op)
    requires Inv(s) && Enabled(s, op)
    ensures Inv(Next(s, op))
  {
    match op
    case Prepare(stream, b) => PrepareKeeps(s, stream, b);
    case TakeRef(f, i) => TakeRefKeeps(s, f, i);
    case DropRef(f, i) => DropPlaneKeeps(s, f, i);
    case Reset(b) =>
      var empty := s.(buffers := s.buffers - {b});
      ForgetBuffer(s, b);
      DropFromKeeps(empty, s.buffers[b], 0);
    case Own =>
      OnlyRefs(s, Next(s, op));
    case Disown =>
      OnlyRefs(s, Next(s, op));
  }

  lemma ForgetBuffer(s: State, b: Buffer)
    requires Inv(s) && b in s.buffers
    ensures Inv(s.(buffers := s.buffers - {b})) && !Holds(s.(buffers := s.buffers - {b}), s.buffers[b])
  {
    var empty := s.(buffers := s.buffers - {b});
    assert forall g | Holds(empty, g) :: Holds(s, g);
    forall stream <- s.pools
      ensures PoolOk(empty, stream)
    {
      assert PoolOk(s, stream);
    }
    forall f | 0 <= f < |s.frames|
      ensures FrameOk(empty, f)
    {
      assert FrameOk(s, f);
    }
  }

  lemma OnlyRefs(s: State, after: State)
    requires Inv(s)
    requires after.frames == s.frames && after.pools == s.pools && after.buffers == s.buffers
    requires after.refs - after.external == s.refs - s.external
    ensures Inv(after)
  {
    forall stream <- s.pools
      ensures PoolOk(after, stream)
    {
      assert PoolOk(s, stream);
    }
    forall f | 0 <= f < |s.frames|
      ensures FrameOk(after, f)
    {
      assert FrameOk(s, f);
    }
  }

  // --- Runs.

  predicate Runs(s: State, ops: seq<Op>)
    decreases |ops|
  {
    ops != [] ==> Enabled(s, ops[0]) && Runs(Next(s, ops[0]), ops[1..])
  }

  function After(s: State, ops: seq<Op>): State
    requires Runs(s, ops)
    decreases |ops|
  {
    if ops == [] then s else After(Next(s, ops[0]), ops[1..])
  }

  /** A new allocator: every frame in the pool of its stream, nothing out, one reference. */
  predicate Start(s: State) {
    && (forall stream <- s.pools :: NoDuplicates(s.pools[stream]) &&
          forall f <- s.pools[stream] :: f < |s.frames| && s.frames[f].stream == stream)
    && (forall f | 0 <= f < |s.frames| ::
          && s.frames[f].outstanding == 0 && s.frames[f].stream in s.pools && f in s.pools[s.frames[f].stream]
          && forall i | 0 <= i < |s.frames[f].planes| :: s.frames[f].planes[i] == 0)
    && s.buffers == map[] && s.refs == s.external == 1
  }

  lemma {:induction false} NothingOut(frames: seq<Frame>)
    requires forall f | 0 <= f < |frames| :: frames[f].outstanding == 0
    ensures Total(frames) == 0
    decreases |frames|
  {
    if frames != [] {
      NothingOut(frames[..|frames| - 1]);
    }
  }

  lemma StartInv(s: State)
    requires Start(s)
    ensures Inv(s)
  {
    NothingOut(s.frames);
    forall f | 0 <= f < |s.frames|
      ensures FrameOk(s, f)
    {
      CountOutBounds(s.frames[f].planes);
    }
    forall stream <- s.pools
      ensures PoolOk(s, stream)
    {
    }
  }

  /** Frames are conserved in every reachable state: a frame with planes is in its pool exactly when no
    * plane is out, the counter is right, no frame is in two buffers, and the allocator is kept alive by
    * its external references and every plane that is out. */
  lemma {:induction false} RunKeeps(s: State, ops: seq<Op>)
    requires Inv(s) && Runs(s, ops)
    ensures Inv(After(s, ops))
    decreases |ops|
  {
    if ops != [] {
      StepKeeps(s, ops[0]);
      hide Inv, Next, Enabled;
      RunKeeps(Next(s, ops[0]), ops[1..]);
    }
  }

  /** A frame with planes is in its pool iff none of its memories is out. */
  lemma InPoolIff(s: State, f: nat)
    requires Inv(s) && f < |s.frames| && s.frames[f].planes != []
    ensures s.frames[f].stream in s.pools
    ensures
      f in s.pools[s.frames[f].stream] <==>
      forall i | 0 <= i < |s.frames[f].planes| :: s.frames[f].planes[i] == 0
  {
    assert FrameOk(s, f) && PoolOk(s, s.frames[f].stream);
    CountOutBounds(s.frames[f].planes);
  }

  lemma {:induction false} TotalZero(frames: seq<Frame>)
    requires forall f | 0 <= f < |frames| :: frames[f].outstanding >= 0
    ensures Total(frames) >= 0
    ensures Total(frames) == 0 ==> forall f | 0 <= f < |frames| :: frames[f].outstanding == 0
    decreases |frames|
  {
    if frames != [] {
      TotalZero(frames[..|frames| - 1]);
    }
  }

  /** When the last reference to the allocator goes, no plane is out, no buffer holds a frame with planes,
    * and the pools hold every frame that has any: freeing them meets no outstanding plane and leaves
    * behind at most frames without planes. */
  lemma NothingLeftBehind(s: State)
    requires Inv(s) && s.refs == 0
    ensures s.external == 0
    ensures forall f | 0 <= f < |s.frames| ::
      && s.frames[f].outstanding == 0 && s.frames[f].stream in s.pools
      && (s.frames[f].planes != [] ==> f in s.pools[s.frames[f].stream] && !Holds(s, f))
  {
    forall f | 0 <= f < |s.frames|
      ensures s.frames[f].outstanding >= 0
    {
      assert FrameOk(s, f);
    }
    TotalZero(s.frames);
    forall f | 0 <= f < |s.frames|
      ensures s.frames[f].stream in s.pools
      ensures s.frames[f].planes != [] ==> f in s.pools[s.frames[f].stream] && !Holds(s, f)
    {
      assert FrameOk(s, f) && PoolOk(s, s.frames[f].stream);
    }
  }

  predicate InSomePool(s: State, f: nat) {
    exists stream <- s.pools :: f in s.pools[stream]
  }

  lemma DropFromFrames(s: State, f: nat, i: nat)
    requires f < |s.frames| && i <= |s.frames[f].planes|
    requires forall j | i <= j < |s.frames[f].planes| :: s.frames[f].planes[j] > 0
    ensures |DropFrom(s, f, i).frames| == |s.frames|
    ensures forall g | 0 <= g < |s.frames| :: |DropFrom(s, f, i).frames[g].planes| == |s.frames[g].planes|
    ensures forall g | InSomePool(DropFrom(s, f, i), g) :: InSomePool(s, g) || (g == f && s.frames[f].planes != [])
    decreases |s.frames[f].planes| - i
  {
    if i < |s.frames[f].planes| {
      var next := DropPlane(s, f, i);
      assert forall g | InSomePool(next, g) :: InSomePool(s, g) || g == f;
      hide InSomePool;
      DropFromFrames(next, f, i + 1);
    }
  }

  /** A frame without planes never comes back to a pool it has left: no memory is there to bring it. */
  lemma PlanelessStaysOut(s: State, op: Op, f: nat)
    requires Inv(s) && Enabled(s, op)
    requires f < |s.frames| && s.frames[f].planes == [] && !InSomePool(s, f)
    ensures f < |Next(s, op).frames| && Next(s, op).frames[f].planes == [] && !InSomePool(Next(s, op), f)
  {
    match op
    case Prepare(stream, b) =>
    case TakeRef(g, i) =>
    case DropRef(g, i) =>
    case Reset(b) => DropFromFrames(s.(buffers := s.buffers - {b}), s.buffers[b], 0);
    case Own =>
    case Disown =>
  }

  lemma {:induction false} PlanelessLost(s: State, ops: seq<Op>, f: nat)
    requires Inv(s) && Runs(s, ops)
    requires f < |s.frames| && s.frames[f].planes == [] && !InSomePool(s, f)
    ensures f < |After(s, ops).frames| && !InSomePool(After(s, ops), f)
    decreases |ops|
  {
    if ops != [] {
      StepKeeps(s, ops[0]);
      PlanelessStaysOut(s, ops[0], f);
      hide Inv, Next, Enabled, InSomePool;
      PlanelessLost(Next(s, ops[0]), ops[1..], f);
    }
  }

  /** A frame without planes, the only one of its stream. */
  function OnePlaneless(pool: seq<nat>, buffers: map<Buffer, nat>): State {
    State([Frame(0, [], 0)], map[0 := pool], buffers, 0, 0)
  }

  /** The shortest run: the frame is handed out with a buffer. */
  lemma PlanelessGoesOut()
    ensures AfterPrepare(OnePlaneless([0], map[]), 0, 5) == OnePlaneless([], map[5 := 0])
  {
    var s := OnePlaneless([0], map[]);
    assert [0][1..] == [] && AllOut(s.frames[0]) == s.frames[0];
    assert s.frames[0 := s.frames[0]] == s.frames && s.pools[0 := []] == map[0 := []] && s.buffers[5 := 0] == map[5 := 0];
  }

  /** The buffer comes back, and the frame is in no pool. */
  lemma PlanelessComesBack()
    ensures Enabled(OnePlaneless([], map[5 := 0]), Reset(5))
    ensures Next(OnePlaneless([], map[5 := 0]), Reset(5)) == OnePlaneless([], map[])
    ensures !InSomePool(OnePlaneless([], map[]), 0)
  {
    var s := OnePlaneless([], map[5 := 0]);
    assert s.buffers - {5} == map[];
  }

  /** It starts in the pool, with the invariant. */
  lemma OnePlanelessInv()
    ensures Inv(OnePlaneless([0], map[]))
  {
    var s := OnePlaneless([0], map[]);
    assert s.frames[..0] == [] && Total(s.frames) == 0;
    assert CountOut([]) == 0;
    assert PoolOk(s, 0) && FrameOk(s, 0) && BuffersOk(s);
  }
}
