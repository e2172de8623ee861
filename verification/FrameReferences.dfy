/** What the steps of FrameStates do to references and pools, counted from the outside. */
module FrameReferences {
  import opened Bytes
  import opened FrameStates

  /** The frame that is next in a pool. */
  predicate IsNext(s: State, stream: Stream, f: nat) {
    stream in s.pools && s.pools[stream] != [] && s.pools[stream][0] == f
  }

  /** The references to memory i of frame f that an operation creates: a buffer takes one to each memory of the next
    * frame and gives them up when it is reset, and others take and drop single ones. */
  function Change(s: State, op: Op, f: nat, i: nat): int {
    match op
    case Prepare(stream, _) => if IsNext(s, stream, f) then 1 else 0
    case TakeRef(g, j) => if g == f && j == i then 1 else 0
    case DropRef(g, j) => if g == f && j == i then -1 else 0
    case Reset(b) => if b in s.buffers && s.buffers[b] == f then -1 else 0
    case _ => 0
  }

  lemma {:induction false} DropFromCounts(s: State, f: nat, i: nat)
    requires f < |s.frames| && i <= |s.frames[f].planes|
    requires forall j | i <= j < |s.frames[f].planes| :: s.frames[f].planes[j] > 0
    ensures
      var after := DropFrom(s, f, i);
      && |after.frames| == |s.frames| && after.buffers == s.buffers && after.external == s.external
      && (forall g | 0 <= g < |s.frames| && g != f :: after.frames[g] == s.frames[g])
      && after.frames[f].stream == s.frames[f].stream && |after.frames[f].planes| == |s.frames[f].planes|
      && (forall j | 0 <= j < |s.frames[f].planes| ::
            after.frames[f].planes[j] == s.frames[f].planes[j] - if j >= i then 1 else 0)
    decreases |s.frames[f].planes| - i
  {
    if i < |s.frames[f].planes| {
      DropFromCounts(DropPlane(s, f, i), f, i + 1);
    }
  }

  /** A reset drops exactly one reference to every memory of the frame of the buffer, and touches no other frame. */
  lemma ResetDrops(s: State, b: Buffer)
    requires Inv(s) && b in s.buffers
    ensures Enabled(s, Reset(b)) && s.buffers[b] < |s.frames|
    ensures
      var f, after := s.buffers[b], Next(s, Reset(b));
      && |after.frames| == |s.frames| && after.buffers == s.buffers - {b} && after.external == s.external
      && (forall g | 0 <= g < |s.frames| && g != f :: after.frames[g] == s.frames[g])
      && after.frames[f].stream == s.frames[f].stream && |after.frames[f].planes| == |s.frames[f].planes|
      && (forall j | 0 <= j < |s.frames[f].planes| :: after.frames[f].planes[j] == s.frames[f].planes[j] - 1)
  {
    DropFromCounts(s.(buffers := s.buffers - {b}), s.buffers[b], 0);
  }

  /** Every operation changes the references to every memory by what it says. */
  lemma StepCounts(s: State, op: Op, f: nat, i: nat)
    requires Inv(s) && Enabled(s, op) && f < |s.frames| && i < |s.frames[f].planes|
    ensures
      var after := Next(s, op);
      && |after.frames| == |s.frames| && after.frames[f].stream == s.frames[f].stream
      && |after.frames[f].planes| == |s.frames[f].planes|
      && after.frames[f].planes[i] == s.frames[f].planes[i] + Change(s, op, f, i)
  {
    match op
    case Prepare(stream, b) => PrepareCounts(s, stream, b, f, i);
    case Reset(b) => ResetDrops(s, b);
    case _ =>
  }

  lemma PrepareCounts(s: State, stream: Stream, b: Buffer, f: nat, i: nat)
    requires Inv(s) && f < |s.frames| && i < |s.frames[f].planes|
    ensures
      var after := AfterPrepare(s, stream, b);
      && |after.frames| == |s.frames| && after.frames[f].stream == s.frames[f].stream
      && |after.frames[f].planes| == |s.frames[f].planes|
      && after.frames[f].planes[i] == s.frames[f].planes[i] + if IsNext(s, stream, f) then 1 else 0
  {
    if IsNext(s, stream, f) {
      assert PoolOk(s, stream) && f in s.pools[stream] && FrameOk(s, f);
      CountOutBounds(s.frames[f].planes);
      hide CountOut;
    } else if stream in s.pools && s.pools[stream] != [] {
      assert PoolOk(s, stream) && s.pools[stream][0] in s.pools[stream];
    }
  }

  /** Buffers get their frame when they are prepared and lose it when they are reset; others count for themselves. */
  lemma StepBuffers(s: State, op: Op)
    requires Inv(s) && Enabled(s, op)
    ensures
      var after := Next(s, op);
      && after.external == s.external + (if op.Own? then 1 else if op.Disown? then -1 else 0)
      && (match op
          case Prepare(stream, b) =>
            after.buffers == if stream in s.pools && s.pools[stream] != [] then s.buffers[b := s.pools[stream][0]] else s.buffers
          case Reset(b) => after.buffers == s.buffers - {b}
          case _ => after.buffers == s.buffers)
  {
    match op
    case Prepare(stream, b) =>
      if stream in s.pools && s.pools[stream] != [] {
        assert PoolOk(s, stream) && s.pools[stream][0] in s.pools[stream];
      }
    case Reset(b) => ResetDrops(s, b);
    case _ =>
  }

  /** All that the operations of a run change. */
  function Changes(s: State, ops: seq<Op>, f: nat, i: nat): int
    requires Runs(s, ops)
    decreases |ops|
  {
    if ops == [] then 0 else Change(s, ops[0], f, i) + Changes(Next(s, ops[0]), ops[1..], f, i)
  }

  /** After any run a memory has the references it had, plus those taken, less those dropped. */
  lemma {:induction false} RunCounts(s: State, ops: seq<Op>, f: nat, i: nat)
    requires Inv(s) && Runs(s, ops) && f < |s.frames| && i < |s.frames[f].planes|
    ensures
      var after := After(s, ops);
      && |after.frames| == |s.frames| && |after.frames[f].planes| == |s.frames[f].planes|
      && after.frames[f].planes[i] == s.frames[f].planes[i] + Changes(s, ops, f, i)
    decreases |ops|
  {
    if ops != [] {
      StepKeeps(s, ops[0]);
      StepCounts(s, ops[0], f, i);
      hide Inv, Next, Enabled, Change;
      RunCounts(Next(s, ops[0]), ops[1..], f, i);
    }
  }

  /** When a buffer is reset its frame goes back to its pool iff nobody else has a reference to one of its memories. */
  lemma ResetReturnsIff(s: State, b: Buffer)
    requires Inv(s) && b in s.buffers && s.buffers[b] < |s.frames| && s.frames[s.buffers[b]].planes != []
    ensures Enabled(s, Reset(b))
    ensures
      var f, after := s.buffers[b], Next(s, Reset(b));
      var fr := s.frames[f];
      && fr.stream in after.pools && f < |after.frames|
      && (f in after.pools[fr.stream] <==> forall j | 0 <= j < |fr.planes| :: fr.planes[j] == 1)
      && (f in after.pools[fr.stream] <==> after.frames[f].outstanding == 0)
  {
    var f, after := s.buffers[b], Next(s, Reset(b));
    ResetDrops(s, b);
    StepKeeps(s, Reset(b));
    hide Next, Enabled;
    assert FrameOk(after, f) && after.frames[f].stream == s.frames[f].stream;
    assert PoolOk(after, s.frames[f].stream);
    CountOutBounds(after.frames[f].planes);
    hide CountOut, Inv;
  }

  /** The planes of a frame in its pool have no references outside. */
  lemma PooledIsUnreferenced(s: State, f: nat)
    requires Inv(s) && f < |s.frames| && s.frames[f].stream in s.pools && f in s.pools[s.frames[f].stream]
    ensures s.frames[f].outstanding == 0 && forall j | 0 <= j < |s.frames[f].planes| :: s.frames[f].planes[j] == 0
  {
    assert PoolOk(s, s.frames[f].stream) && FrameOk(s, f);
    CountOutBounds(s.frames[f].planes);
  }

  /** Preparing a buffer and resetting it undoes itself: the next frame is out in between, and afterwards it is the
    * last of its pool, with everything else as before. */
  lemma PrepareThenReset(s: State, stream: Stream, b: Buffer, f: nat)
    requires Inv(s) && b !in s.buffers && IsNext(s, stream, f) && f < |s.frames| && s.frames[f].planes != []
    ensures Enabled(s, Prepare(stream, b)) && Enabled(Next(s, Prepare(stream, b)), Reset(b))
    ensures
      var out := Next(s, Prepare(stream, b));
      var after := Next(out, Reset(b));
      && out.buffers == s.buffers[b := f] && out.frames[f].outstanding == |s.frames[f].planes|
      && stream in out.pools && out.pools[stream] == s.pools[stream][1..]
      && after.frames == s.frames && after.buffers == s.buffers
      && after.refs == s.refs && after.external == s.external
      && stream in after.pools && f in after.pools[stream]
  {
    var out := Next(s, Prepare(stream, b));
    assert PoolOk(s, stream) && s.pools[stream][0] in s.pools[stream] && FrameOk(s, f);
    PrepareKeeps(s, stream, b);
    PrepareFrames(s, stream, b);
    PooledIsUnreferenced(s, f);
    assert out.buffers[b] == f && s.frames[f].stream == stream;
    forall j | 0 <= j < |s.frames[f].planes|
      ensures |out.frames[f].planes| == |s.frames[f].planes| && out.frames[f].planes[j] == 1
    {
      PrepareCounts(s, stream, b, f, j);
    }
    hide CountOut, DropFrom, FrameOk, PoolOk;
    ResetAfterPrepare(s, out, b, f);
  }

  lemma ResetAfterPrepare(s: State, out: State, b: Buffer, f: nat)
    requires Inv(s) && Inv(out) && f < |s.frames| == |out.frames| && b !in s.buffers && out.buffers == s.buffers[b := f]
    requires s.frames[f].planes != [] && out.frames[f].stream == s.frames[f].stream && out.external == s.external
    requires |out.frames[f].planes| == |s.frames[f].planes|
    requires forall j | 0 <= j < |s.frames[f].planes| :: s.frames[f].planes[j] == 0 && out.frames[f].planes[j] == 1
    requires forall g | 0 <= g < |s.frames| && g != f :: out.frames[g] == s.frames[g]
    ensures Enabled(out, Reset(b))
    ensures
      var after := Next(out, Reset(b));
      && after.frames == s.frames && after.buffers == s.buffers && after.refs == s.refs && after.external == s.external
      && s.frames[f].stream in after.pools && f in after.pools[s.frames[f].stream]
  {
    hide Inv;
    ResetDrops(out, b);
    ResetReturnsIff(out, b);
    StepKeeps(out, Reset(b));
    hide Next, Enabled;
    SameFrame(s, Next(out, Reset(b)), f);
    assert s.buffers[b := f] - {b} == s.buffers;
  }

  /** A frame whose references are as before is as before. */
  lemma SameFrame(s: State, after: State, f: nat)
    requires Inv(s) && Inv(after) && |after.frames| == |s.frames| && f < |s.frames|
    requires after.frames[f].stream == s.frames[f].stream && after.frames[f].planes == s.frames[f].planes
    requires forall g | 0 <= g < |s.frames| && g != f :: after.frames[g] == s.frames[g]
    ensures after.frames == s.frames && after.refs - after.external == s.refs - s.external
  {
    assert FrameOk(s, f) && FrameOk(after, f);
    assert after.frames[f] == s.frames[f];
    assert after.frames == s.frames;
  }

  /** Dropping the planes of a frame adds it to its pool at most once: when the last one is back. */
  lemma {:induction false} DropFromPools(s: State, f: nat, i: nat)
    requires f < |s.frames| && i <= |s.frames[f].planes| && s.frames[f].stream in s.pools
    requires forall j | i <= j < |s.frames[f].planes| :: s.frames[f].planes[j] > 0
    requires s.frames[f].outstanding == CountOut(s.frames[f].planes)
    ensures
      var after := DropFrom(s, f, i);
      && f < |after.frames|
      && (after.pools == s.pools
          || (after.pools == s.pools[s.frames[f].stream := s.pools[s.frames[f].stream] + [f]]
              && s.frames[f].outstanding > 0 && after.frames[f].outstanding == 0))
    decreases |s.frames[f].planes| - i
  {
    var planes := s.frames[f].planes;
    if i < |planes| {
      var next := DropPlane(s, f, i);
      CountOutSet(planes, i, planes[i] - 1);
      CountOutBounds(planes);
      CountOutBounds(next.frames[f].planes);
      assert forall j | i < j < |planes| :: next.frames[f].planes[j] > 0;
      assert i + 1 < |planes| ==> next.frames[f].planes[i + 1] > 0;
      if next.frames[f].outstanding == 0 {
        assert i + 1 == |planes|;
        assert DropFrom(next, f, i + 1) == next;
      } else {
        hide CountOut;
        DropFromPools(next, f, i + 1);
      }
    }
  }

  /** The operation takes a frame out of the pool of a stream. */
  predicate TakesFrom(s: State, op: Op, stream: Stream) {
    op.Prepare? && op.stream == stream && stream in s.pools && s.pools[stream] != []
  }

  /** A pool only loses its first frame, to a buffer, and only gains a frame whose last memory came back, at its end. */
  lemma StepPools(s: State, op: Op, stream: Stream)
    requires Inv(s) && Enabled(s, op) && stream in s.pools
    ensures
      var after := Next(s, op);
      var kept := if TakesFrom(s, op, stream) then s.pools[stream][1..] else s.pools[stream];
      && stream in after.pools
      && (after.pools[stream] == kept
          || exists f | 0 <= f < |s.frames| ::
               && after.pools[stream] == kept + [f] && s.frames[f].stream == stream
               && s.frames[f].outstanding > 0 && f < |after.frames| && after.frames[f].outstanding == 0)
  {
    match op
    case Prepare(st, b) =>
      if st in s.pools && s.pools[st] != [] {
        assert PoolOk(s, st) && s.pools[st][0] in s.pools[st];
      }
    case DropRef(f, i) => assert FrameOk(s, f);
      CountOutBounds(s.frames[f].planes);
      hide CountOut;
    case Reset(b) =>
      var f := s.buffers[b];
      assert FrameOk(s, f);
      DropFromPools(s.(buffers := s.buffers - {b}), f, 0);
      hide CountOut, DropFrom;
    case _ =>
  }
}
