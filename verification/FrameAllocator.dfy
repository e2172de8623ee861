/** The allocator and the buffer pool of the GStreamer element, updating frames and queues in place. */
module FrameAllocator {
  import opened Bytes
  import opened FrameStates

  function NewFrame(stream: Stream, planes: nat): Frame {
    Frame(stream, seq(planes, _ => 0), 0)
  }

  /** A stream with a frame for each of its buffers, all in its pool, is added to a new allocator. */
  lemma AddedStart(s: State, after: State, stream: Stream, planes: seq<nat>)
    requires Start(s) && stream !in s.pools
    requires |after.frames| == |s.frames| + |planes| && s.frames <= after.frames
    requires forall i | 0 <= i < |planes| :: after.frames[|s.frames| + i] == NewFrame(stream, planes[i])
    requires after.pools == s.pools[stream := seq(|planes|, i => |s.frames| + i)]
    requires after.buffers == map[] && after.refs == after.external == 1
    ensures Start(after)
  {
    forall f | 0 <= f < |after.frames|
      ensures after.frames[f].outstanding == 0 && after.frames[f].stream in after.pools
      ensures f in after.pools[after.frames[f].stream]
      ensures forall i | 0 <= i < |after.frames[f].planes| :: after.frames[f].planes[i] == 0
    {
      AddedFrame(s, after, stream, planes, f);
    }
    forall other <- after.pools
      ensures NoDuplicates(after.pools[other])
      ensures forall f <- after.pools[other] :: f < |after.frames| && after.frames[f].stream == other
    {
      AddedPool(s, after, stream, planes, other);
    }
  }

  lemma AddedFrame(s: State, after: State, stream: Stream, planes: seq<nat>, f: nat)
    requires Start(s) && stream !in s.pools
    requires |after.frames| == |s.frames| + |planes| && s.frames <= after.frames
    requires forall i | 0 <= i < |planes| :: after.frames[|s.frames| + i] == NewFrame(stream, planes[i])
    requires after.pools == s.pools[stream := seq(|planes|, i => |s.frames| + i)]
    requires f < |after.frames|
    ensures after.frames[f].outstanding == 0 && after.frames[f].stream in after.pools
    ensures f in after.pools[after.frames[f].stream]
    ensures forall i | 0 <= i < |after.frames[f].planes| :: after.frames[f].planes[i] == 0
  {
    var n := |s.frames|;
    if f < n {
      assert after.frames[f] == s.frames[f];
    } else {
      assert after.frames[n + (f - n)] == NewFrame(stream, planes[f - n]);
      assert after.pools[stream][f - n] == f;
    }
  }

  lemma AddedPool(s: State, after: State, stream: Stream, planes: seq<nat>, other: Stream)
    requires Start(s) && stream !in s.pools
    requires |after.frames| == |s.frames| + |planes| && s.frames <= after.frames
    requires forall i | 0 <= i < |planes| :: after.frames[|s.frames| + i] == NewFrame(stream, planes[i])
    requires after.pools == s.pools[stream := seq(|planes|, i => |s.frames| + i)]
    requires other in after.pools
    ensures NoDuplicates(after.pools[other])
    ensures forall f <- after.pools[other] :: f < |after.frames| && after.frames[f].stream == other
  {
    var n := |s.frames|;
    if other != stream {
      assert forall f <- s.pools[other] :: after.frames[f] == s.frames[f];
    } else {
      assert forall f <- after.pools[stream] :: after.frames[n + (f - n)] == NewFrame(stream, planes[f - n]);
    }
  }

  class GstLibcameraAllocator {
    var frames: seq<Frame>
    var pools: map<Stream, seq<nat>>
    var buffers: map<Buffer, nat>
    var refs: int
    ghost var external: nat

    ghost function Contents(): State
      reads this
    {
      State(frames, pools, buffers, refs, external)
    }

    /** gst_libcamera_allocator_new(): each stream of the camera gets a pool in turn. */
    constructor ()
      ensures Start(Contents()) && frames == [] && pools == map[]
    {
      frames, pools, buffers, refs, external := [], map[], map[], 1, 1;
    }

    /** The body of its loop: a frame for each buffer of the stream, which is given by its planes. */
    method AddStream(stream: Stream, planes: seq<nat>)
      requires Start(Contents()) && stream !in pools
      modifies this
      ensures Start(Contents())
      ensures |frames| == |old(frames)| + |planes| && old(frames) <= frames
      ensures forall i | 0 <= i < |planes| :: frames[|old(frames)| + i] == NewFrame(stream, planes[i])
      ensures pools == old(pools)[stream := seq(|planes|, i => |old(frames)| + i)]
    {
      ghost var first, before := |frames|, Contents();
      var pool: seq<nat> := [];
      for i := 0 to |planes|
        invariant |frames| == first + i && before.frames <= frames
        invariant forall j | 0 <= j < i :: frames[first + j] == NewFrame(stream, planes[j])
        invariant |pool| == i && forall j | 0 <= j < i :: pool[j] == first + j
        invariant pools == before.pools && buffers == map[] && refs == external == 1
      {
        pool := pool + [|frames|];
        frames := frames + [NewFrame(stream, planes[i])];
      }
      pools := pools[stream := pool];
      assert pool == seq(|planes|, i => first + i);
      AddedStart(before, Contents(), stream, planes);
    }

    /** gst_libcamera_allocator_prepare_buffer(): all memories of the first frame of the pool go into the
      * buffer, each with a reference to the allocator. */
    method PrepareBuffer(stream: Stream, b: Buffer) returns (ok: bool)
      requires Inv(Contents()) && b !in buffers
      modifies this
      ensures Inv(Contents()) && Contents() == AfterPrepare(old(Contents()), stream, b)
      ensures ok <==> Prepared(old(Contents()), stream).Some?
      ensures ok ==> b in buffers && stream in old(pools) && [buffers[b]] + pools[stream] == old(pools)[stream]
    {
      PrepareKeeps(Contents(), stream, b);
      if stream !in pools || pools[stream] == [] {
        return false;
      }
      assert PoolOk(Contents(), stream);
      var f := pools[stream][0];
      assert f in pools[stream];
      assert FrameOk(Contents(), f);
      CountOutBounds(frames[f].planes);
      ghost var before := Contents();
      hide Inv, PoolOk, FrameOk, CountOut;
      pools := pools[stream := pools[stream][1..]];
      buffers := buffers[b := f];
      TakeAll(f);
      ok := true;
    }

    /** Every memory of the frame gets its first reference. */
    method TakeAll(f: nat)
      requires f < |frames| && forall i | 0 <= i < |frames[f].planes| :: frames[f].planes[i] == 0
      modifies this`frames, this`refs
      ensures f < |old(frames)| && frames == old(frames)[f := AllOut(old(frames)[f])]
      ensures refs == old(refs) + |old(frames)[f].planes|
    {
      ghost var before := frames;
      for i := 0 to |frames[f].planes|
        invariant |frames| == |before| && |frames[f].planes| == |before[f].planes|
        invariant frames == before[f := frames[f]] && frames[f].stream == before[f].stream
        invariant frames[f].outstanding == before[f].outstanding + i && refs == old(refs) + i
        invariant forall j | 0 <= j < |frames[f].planes| :: frames[f].planes[j] == if j < i then 1 else 0
      {
        var fr := frames[f];
        frames := frames[f := fr.(outstanding := fr.outstanding + 1, planes := fr.planes[i := 1])];
        refs := refs + 1;
      }
      assert frames[f].planes == AllOut(before[f]).planes;
    }

    /** Dropping a reference to a memory; the last one runs gst_libcamera_allocator_release(), which finds
      * the pool it looks up. */
    method UnrefMemory(f: nat, i: nat) returns (released: bool)
      requires Inv(Contents()) && Droppable(Contents(), f, i)
      modifies this
      ensures Inv(Contents()) && Contents() == DropPlane(old(Contents()), f, i)
      ensures released <==> old(frames[f].planes[i]) == 1
    {
      DropPlaneKeeps(Contents(), f, i);
      assert FrameOk(Contents(), f);
      hide Inv, PoolOk, FrameOk, CountOut;
      var fr := frames[f];
      released := fr.planes[i] == 1;
      frames := frames[f := fr.(planes := fr.planes[i := fr.planes[i] - 1])];
      if released {
        frames := frames[f := frames[f].(outstanding := fr.outstanding - 1)];
        if frames[f].outstanding == 0 {
          pools := pools[fr.stream := pools[fr.stream] + [f]];
        }
        refs := refs - 1;
      }
      assert frames == old(frames)[f := frames[f]];
    }

    /** gst_libcamera_pool_reset_buffer(): the buffer drops all its memories. */
    method RemoveAllMemory(b: Buffer)
      requires Inv(Contents()) && b in buffers
      modifies this
      ensures Inv(Contents()) && b !in buffers
      ensures Enabled(old(Contents()), Reset(b)) && Contents() == Next(old(Contents()), Reset(b))
    {
      var f := buffers[b];
      assert FrameOk(Contents(), f);
      ForgetBuffer(Contents(), b);
      assert Enabled(Contents(), Reset(b));
      buffers := buffers - {b};
      ghost var start := Contents();
      hide Inv, FrameOk, CountOut;
      assert forall j | 0 <= j < |frames[f].planes| :: frames[f].planes[j] > 0;
      for i := 0 to |frames[f].planes|
        invariant Inv(Contents()) && buffers == start.buffers
        invariant f < |frames| && |frames[f].planes| == |start.frames[f].planes|
        invariant forall j | i <= j < |frames[f].planes| :: frames[f].planes[j] > 0
        invariant DropFrom(start, f, 0) == DropFrom(Contents(), f, i)
      {
        assert !Holds(Contents(), f);
        var released := UnrefMemory(f, i);
      }
    }

    /** gst_libcamera_allocator_dispose(), once the last reference is gone: no frame in a pool has a plane
      * outstanding, and every frame that has planes is freed with its pool. */
    method Dispose() returns (freed: seq<nat>)
      requires Inv(Contents()) && refs == 0
      modifies this
      ensures pools == map[]
      ensures forall f <- freed :: f < |frames| && frames[f].outstanding == 0
      ensures forall f | 0 <= f < |frames| && frames[f].planes != [] :: f in freed
      ensures NoDuplicates(freed)
    {
      NothingLeftBehind(Contents());
      freed := [];
      ghost var was := Contents();
      PoolsAreOk(was);
      hide Inv, PoolOk, FrameOk, BuffersOk, NoDuplicates;
      assert NoDuplicates([]) by { NoDuplicatesNone(); }
      while pools != map[]
        invariant frames == was.frames && pools.Keys <= was.pools.Keys
        invariant forall stream <- pools :: pools[stream] == was.pools[stream]
        invariant forall f <- freed :: f < |frames| && frames[f].outstanding == 0
        invariant forall stream <- was.pools | stream !in pools :: forall f <- was.pools[stream] :: f in freed
        invariant NoDuplicates(freed) && forall f <- freed :: frames[f].stream !in pools
        decreases |pools.Keys|
      {
        assert (forall stream :: stream !in pools) ==> pools == map[];
        var stream :| stream in pools;
        var pool := FreePool(stream);
        NoDuplicatesAppend(freed, pool);
        freed := freed + pool;
        pools := pools - {stream};
      }
    }

    /** gst_libcamera_allocator_free_pool(): frames are popped until the queue is empty. */
    method FreePool(stream: Stream) returns (freed: seq<nat>)
      requires stream in pools
      requires forall f <- pools[stream] :: f < |frames| && frames[f].outstanding == 0
      ensures freed == pools[stream]
    {
      freed := [];
      var queue := pools[stream];
      while queue != []
        invariant freed + queue == pools[stream]
        decreases |queue|
      {
        freed, queue := freed + [queue[0]], queue[1..];
      }
    }
  }

  lemma PoolsAreOk(s: State)
    requires Inv(s)
    ensures forall stream <- s.pools :: NoDuplicates(s.pools[stream]) && forall f <- s.pools[stream] ::
      f < |s.frames| && s.frames[f].stream == stream && s.frames[f].outstanding == 0
  {
    forall stream <- s.pools
      ensures NoDuplicates(s.pools[stream]) && forall f <- s.pools[stream] ::
        f < |s.frames| && s.frames[f].stream == stream && s.frames[f].outstanding == 0
    {
      assert PoolOk(s, stream);
    }
  }

  lemma NoDuplicatesNone()
    ensures NoDuplicates([])
  {
  }

  lemma NoDuplicatesAppend(a: seq<nat>, b: seq<nat>)
    requires NoDuplicates(a) && NoDuplicates(b) && forall x <- a :: x !in b
    ensures NoDuplicates(a + b)
  {
    forall i, j | 0 <= i < j < |a + b|
      ensures (a + b)[i] != (a + b)[j]
    {
      if i < |a| <= j {
        assert a[i] in a && b[j - |a|] in b;
      }
    }
  }

  /** The pool of GstBuffers of a stream. */
  class GstLibcameraPool {
    var queue: seq<Buffer>
    const allocator: GstLibcameraAllocator
    const stream: Stream

    ghost predicate Valid()
      reads this, allocator
    {
      && Inv(allocator.Contents())
      && (forall b <- queue :: b !in allocator.buffers)
      && forall i, j | 0 <= i < j < |queue| :: queue[i] != queue[j]
    }

    /** gst_libcamera_pool_new(): as many new buffers as the stream has frames in its pool. */
    constructor (allocator: GstLibcameraAllocator, stream: Stream, fresh_: seq<Buffer>)
      requires Inv(allocator.Contents())
      requires stream in allocator.pools && |fresh_| == |allocator.pools[stream]|
      requires forall b <- fresh_ :: b !in allocator.buffers
      requires forall i, j | 0 <= i < j < |fresh_| :: fresh_[i] != fresh_[j]
      ensures Valid() && queue == fresh_ && this.allocator == allocator && this.stream == stream
    {
      queue, this.allocator, this.stream := fresh_, allocator, stream;
    }

    /** gst_libcamera_pool_acquire_buffer(): fails without a buffer, and also when a buffer has been popped
      * but no frame is there for it; that buffer is then lost. */
    method AcquireBuffer() returns (buffer: Option<Buffer>)
      requires Valid()
      modifies this, allocator
      ensures Valid()
      ensures old(queue) == [] ==> buffer.None? && queue == [] && allocator.Contents() == old(allocator.Contents())
      ensures old(queue) != [] ==>
        && queue == old(queue)[1..]
        && allocator.Contents() == AfterPrepare(old(allocator.Contents()), stream, old(queue)[0])
        && (buffer == if Prepared(old(allocator.Contents()), stream).Some? then Some(old(queue)[0]) else None)
    {
      if queue == [] {
        return None;
      }
      var buf := queue[0];
      ghost var before := allocator.buffers;
      hide Inv;
      assert forall b <- queue[1..] :: b in queue && b != buf;
      queue := queue[1..];
      var ok := allocator.PrepareBuffer(stream, buf);
      assert allocator.buffers.Keys <= before.Keys + {buf};
      if !ok {
        return None;
      }
      buffer := Some(buf);
    }

    /** A buffer whose last reference is dropped is reset and goes to the end of the queue. */
    method ReleaseBuffer(buffer: Buffer)
      requires Valid() && buffer !in queue && buffer in allocator.buffers
      modifies this, allocator
      ensures Valid() && queue == old(queue) + [buffer]
      ensures Enabled(old(allocator.Contents()), Reset(buffer))
      ensures allocator.Contents() == Next(old(allocator.Contents()), Reset(buffer))
    {
      ghost var before := allocator.Contents();
      allocator.RemoveAllMemory(buffer);
      DropFromBuffers(before.(buffers := before.buffers - {buffer}), before.buffers[buffer], 0);
      queue := queue + [buffer];
    }
  }

  lemma DropFromBuffers(s: State, f: nat, i: nat)
    requires f < |s.frames| && i <= |s.frames[f].planes|
    requires forall j | i <= j < |s.frames[f].planes| :: s.frames[f].planes[j] > 0
    ensures DropFrom(s, f, i).buffers == s.buffers && DropFrom(s, f, i).external == s.external
    decreases |s.frames[f].planes| - i
  {
    if i < |s.frames[f].planes| {
      DropFromBuffers(DropPlane(s, f, i), f, i + 1);
    }
  }
}
